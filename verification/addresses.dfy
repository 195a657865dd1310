/** The nested-pointer resolver of `pbrEngine/memorymap/addresses.py`:
    word alignment, the range check on emulated-memory addresses, and
    `NestedLoc.getAddr`, which follows a chain of pointers hop by hop with a
    bounded number of read attempts per hop. The memory read (a 32-bit read
    with a majority vote over several reads, done outside this module) is an
    oracle giving one value per (hop, attempt, address). */
module Addresses {
  import opened Util

  /** `_baseaddr`: the address rounded down to a multiple of 4. Python's
      `%` with a positive divisor agrees with Dafny's. */
  function BaseAddr(a: int): (r: int)
    ensures r % 4 == 0 && r <= a < r + 4
  {
    a - a % 4
  }

  /** The three conditions above pin the base address down. */
  lemma BaseAddrUnique(a: int, b: int)
    requires b % 4 == 0 && b <= a < b + 4
    ensures b == BaseAddr(a)
  {
    var r := BaseAddr(a);
    assert (a - b) == a % 4 by {
      assert a == b + (a - b) && 0 <= a - b < 4;
      assert b == 4 * (b / 4);
    }
  }

  lemma BaseAddrIdempotent(a: int)
    ensures BaseAddr(BaseAddr(a)) == BaseAddr(a)
  {
    BaseAddrUnique(BaseAddr(a), BaseAddr(a));
  }

  /** `_validLocation`: main memory 0x80000000-0x817FFFFF or the extended
      memory 0x90000000-0x93FFFFFF. */
  predicate ValidLocation(x: int)
  {
    (0x8000_0000 <= x < 0x8180_0000) || (0x9000_0000 <= x < 0x9400_0000)
  }

  /** Both ranges start and end on word boundaries, so aligning a valid
      address keeps it valid. */
  lemma BaseAddrKeepsValid(a: int)
    ensures ValidLocation(a) ==> ValidLocation(BaseAddr(a))
    ensures ValidLocation(a) ==> 0x8000_0000 <= a < 0x9400_0000
  {
  }

  /** The read oracle: the value read at `addr` on attempt `attempt` of hop
      `hop`. */
  type Reader = (nat, nat, int) -> int

  /** The values one hop reads from `loc`, starting at attempt `k`: it stops
      after the first valid value or after attempt `maxAttempts - 1`. */
  function Attempts(read: Reader, hop: nat, loc: int, maxAttempts: nat, k: nat): (r: seq<int>)
    requires k <= maxAttempts
    ensures |r| <= maxAttempts - k
    ensures k < maxAttempts ==> |r| >= 1
    ensures forall a :: 0 <= a < |r| ==> r[a] == read(hop, k + a, loc)
    ensures forall a :: 0 <= a < |r| - 1 ==> !ValidLocation(r[a])
    ensures 0 < |r| < maxAttempts - k ==> ValidLocation(r[|r| - 1])
    decreases maxAttempts - k
  {
    if k == maxAttempts then []
    else
      var v := read(hop, k, loc);
      if ValidLocation(v) || k + 1 == maxAttempts then [v]
      else [v] + Attempts(read, hop, loc, maxAttempts, k + 1)
  }

  /** The value a hop ends with: `val` starts at 0 and is overwritten by
      every read, so it is the last value read. */
  function LastValue(vals: seq<int>): int
  {
    if vals == [] then 0 else vals[|vals| - 1]
  }

  datatype ReadAt = ReadAt(hop: nat, attempt: nat, addr: int, value: int)

  datatype Resolution = Resolution(addr: Option<int>, trail: seq<ReadAt>)

  /** Reads are listed hop by hop, attempts in increasing order. */
  ghost predicate Chronological(rs: seq<ReadAt>)
  {
    forall j, k :: 0 <= j < k < |rs| ==>
      rs[j].hop < rs[k].hop || (rs[j].hop == rs[k].hop && rs[j].attempt < rs[k].attempt)
  }

  function HopReads(hop: nat, loc: int, vals: seq<int>): (r: seq<ReadAt>)
    ensures |r| == |vals|
    ensures forall a :: 0 <= a < |r| ==> r[a] == ReadAt(hop, a, loc, vals[a])
  {
    seq(|vals|, a requires 0 <= a < |vals| => ReadAt(hop, a, loc, vals[a]))
  }

  /** The loop of `getAddr` from hop `hop` on, at address `loc`. */
  function Resolve(read: Reader, loc: int, offsets: seq<int>, maxAttempts: nat, hop: nat): (r: Resolution)
    ensures offsets == [] ==> r == Resolution(Some(loc), [])
    ensures offsets != [] && r.addr.Some? ==> ValidLocation(r.addr.value)
    decreases |offsets|
  {
    if offsets == [] then Resolution(Some(loc), [])
    else
      var vals := Attempts(read, hop, loc, maxAttempts, 0);
      var next := LastValue(vals) + offsets[0];
      var here := HopReads(hop, loc, vals);
      if !ValidLocation(next) then Resolution(None, here)
      else
        var rest := Resolve(read, next, offsets[1..], maxAttempts, hop + 1);
        Resolution(rest.addr, here + rest.trail)
  }

  /** What the trail of reads records: each read is a real read of the
      oracle, hops run from `hop` for at most `|offsets|` hops with at most
      `maxAttempts` attempts each, in order, and a valid value ends its
      hop. */
  ghost predicate WellRead(read: Reader, rs: seq<ReadAt>, hop: nat, hops: nat, maxAttempts: nat)
  {
    && Chronological(rs)
    && (forall k :: 0 <= k < |rs| ==>
          && hop <= rs[k].hop < hop + hops
          && rs[k].attempt < maxAttempts
          && rs[k].value == read(rs[k].hop, rs[k].attempt, rs[k].addr))
    && (forall k :: 0 <= k && k + 1 < |rs| && ValidLocation(rs[k].value) ==> rs[k + 1].hop != rs[k].hop)
  }

  lemma {:induction false} ResolveTrail(read: Reader, loc: int, offsets: seq<int>, maxAttempts: nat, hop: nat)
    ensures WellRead(read, Resolve(read, loc, offsets, maxAttempts, hop).trail, hop, |offsets|, maxAttempts)
    decreases |offsets|
  {
    if offsets != [] {
      var vals := Attempts(read, hop, loc, maxAttempts, 0);
      var next := LastValue(vals) + offsets[0];
      var here := HopReads(hop, loc, vals);
      assert WellRead(read, here, hop, 1, maxAttempts);
      if ValidLocation(next) {
        ResolveTrail(read, next, offsets[1..], maxAttempts, hop + 1);
        var rest := Resolve(read, next, offsets[1..], maxAttempts, hop + 1);
        WellReadAppend(read, here, rest.trail, hop, |offsets|, maxAttempts);
      }
    }
  }

  /** One hop's reads in front of the later hops' reads. */
  lemma WellReadAppend(read: Reader, here: seq<ReadAt>, rest: seq<ReadAt>, hop: nat, hops: nat, maxAttempts: nat)
    requires hops >= 1
    requires WellRead(read, here, hop, 1, maxAttempts)
    requires WellRead(read, rest, hop + 1, hops - 1, maxAttempts)
    ensures WellRead(read, here + rest, hop, hops, maxAttempts)
  {
    var all := here + rest;
    assert forall k :: 0 <= k < |here| ==> all[k] == here[k];
    assert forall k :: |here| <= k < |all| ==> all[k] == rest[k - |here|];
  }

  /** `NestedLoc(start, _, offsets).getAddr(read, maxAttempts)`. */
  function GetAddr(read: Reader, start: int, offsets: seq<int>, maxAttempts: nat): (r: Resolution)
    ensures offsets == [] ==> r == Resolution(Some(start), [])
    ensures offsets != [] && r.addr.Some? ==> ValidLocation(r.addr.value)
    ensures forall k :: 0 <= k < |r.trail| ==> r.trail[k].hop < |offsets| && r.trail[k].attempt < maxAttempts
  {
    ResolveTrail(read, start, offsets, maxAttempts, 0);
    Resolve(read, start, offsets, maxAttempts, 0)
  }

  /** The pointer walk of the doc examples, `read(...read(read(start) + o1)
      + o2 ...) + ok`, and whether every partial sum along it is valid. */
  function Deref(mem: int -> int, loc: int, offsets: seq<int>): int
    decreases |offsets|
  {
    if offsets == [] then loc else Deref(mem, mem(loc) + offsets[0], offsets[1..])
  }

  ghost predicate HopsValid(mem: int -> int, loc: int, offsets: seq<int>)
    decreases |offsets|
  {
    offsets == [] ||
    (ValidLocation(mem(loc) + offsets[0]) && HopsValid(mem, mem(loc) + offsets[0], offsets[1..]))
  }

  /** With a memory that only ever holds valid pointers and at least one
      attempt per hop, the resolver is the doc's pointer walk, returning
      None exactly when some partial sum leaves the valid ranges; each hop
      takes one read. */
  lemma {:induction false} ResolveIsDeref(read: Reader, mem: int -> int, loc: int, offsets: seq<int>, maxAttempts: nat, hop: nat)
    requires maxAttempts >= 1
    requires forall h, a, x :: read(h, a, x) == mem(x)
    requires forall x :: ValidLocation(mem(x))
    ensures Resolve(read, loc, offsets, maxAttempts, hop).addr ==
      if HopsValid(mem, loc, offsets) then Some(Deref(mem, loc, offsets)) else None
    ensures |Resolve(read, loc, offsets, maxAttempts, hop).trail| <= |offsets|
    decreases |offsets|
  {
    if offsets != [] {
      var vals := Attempts(read, hop, loc, maxAttempts, 0);
      assert vals[0] == mem(loc);
      assert |vals| == 1;
      ResolveIsDeref(read, mem, mem(loc) + offsets[0], offsets[1..], maxAttempts, hop + 1);
    }
  }

  /** The doc example `NestedLoc(0x800, 4, [0x20, 1])` resolves to
      `read(read(0x800) + 0x20) + 1`. */
  lemma DocExample(read: Reader, mem: int -> int)
    requires forall h, a, x :: read(h, a, x) == mem(x)
    requires forall x :: ValidLocation(mem(x))
    requires ValidLocation(mem(0x800) + 0x20) && ValidLocation(mem(mem(0x800) + 0x20) + 1)
    ensures GetAddr(read, 0x800, [0x20, 1], 20).addr == Some(mem(mem(0x800) + 0x20) + 1)
  {
    ResolveIsDeref(read, mem, 0x800, [0x20, 1], 20, 0);
    assert [0x20, 1][1..] == [1];
    assert [1][1..] == [];
  }

  /** Only the sum is range-checked: with every one of the 20 reads of
      the only hop invalid (0x10), the offset 0x80000000 still lands in the
      valid range and the chain resolves. */
  lemma InvalidReadsValidSum()
    ensures
      var r := GetAddr((h: nat, a: nat, x: int) => 0x10, 0x1000, [0x8000_0000], 20);
      && |r.trail| == 20
      && (forall k :: 0 <= k < |r.trail| ==> !ValidLocation(r.trail[k].value))
      && r.addr == Some(0x8000_0010)
  {
    var read: Reader := (h: nat, a: nat, x: int) => 0x10;
    var vals := Attempts(read, 0, 0x1000, 20, 0);
    assert !ValidLocation(vals[|vals| - 1]);
    assert |vals| == 20;
    assert LastValue(vals) == 0x10;
    var r := GetAddr(read, 0x1000, [0x8000_0000], 20);
    assert [0x8000_0000][1..] == [];
    assert r.trail == HopReads(0, 0x1000, vals);
  }

  /** A hop whose sum leaves the valid ranges ends the walk with None and
      no further reads. */
  lemma InvalidSumStops(read: Reader, loc: int, offsets: seq<int>, maxAttempts: nat, hop: nat)
    requires offsets != []
    requires !ValidLocation(LastValue(Attempts(read, hop, loc, maxAttempts, 0)) + offsets[0])
    ensures Resolve(read, loc, offsets, maxAttempts, hop).addr.None?
    ensures forall k :: 0 <= k < |Resolve(read, loc, offsets, maxAttempts, hop).trail| ==>
      Resolve(read, loc, offsets, maxAttempts, hop).trail[k].hop == hop
  {
  }
}
