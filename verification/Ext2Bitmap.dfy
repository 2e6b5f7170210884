/** The block bitmaps of an ext2 volume, their groups and the free counters. */
module Ext2Bitmap {
  import opened Bits
  import opened Bytes
  import opened Results

  /** Bit `i` of a byte string, least significant bit first. */
  predicate BitIn(d: seq<Byte>, i: nat) { i / 8 < |d| && Bit(d[i / 8] as nat, i % 8) }

  /** The bytes as one number, the first byte lowest. */
  function Number(d: seq<Byte>): nat { if d == [] then 0 else d[0] as nat + 256 * Number(d[1..]) }

  /** Bit `i` of the bytes is bit `i` of that number. */
  lemma {:induction false} BitOfNumber(d: seq<Byte>, i: nat)
    requires i / 8 < |d|
    ensures BitIn(d, i) <==> Bit(Number(d), i)
  {
    var r := Number(d[1..]);
    if i < 8 {
      assert Pow2(8) == 256 by { assert Pow2(4) == 16; }
      BitLow(256 * r, d[0] as nat, i, 8);
    } else {
      BitOfNumber(d[1..], i - 8);
      assert d[1..][(i - 8) / 8] == d[i / 8];
      assert Pow2(8) == 256 by { assert Pow2(4) == 16; }
      BitShift(d[0] as nat, r, i - 8, 8);
    }
  }

  lemma HalfShift(b: nat, h: nat, r: nat)
    ensures (b + 2 * h * r) / 2 == b / 2 + h * r
  {
    var q := h * r;
    assert 2 * h * r == 2 * q;
  }

  /** Bits above the first byte do not depend on it. */
  lemma {:induction false} BitShift(b: nat, r: nat, i: nat, k: nat)
    requires b < Pow2(k)
    ensures Bit(b + Pow2(k) * r, i + k) == Bit(r, i)
  {
    assert Pow2(0) == 1;
    hide Bit, Pow2;
    if k > 0 {
      Twice(k);
      HalfShift(b, Pow2(k - 1), r);
      HalfBit(b + Pow2(k) * r, i + k);
      BitShift(b / 2, r, i, k - 1);
    }
  }

  /** How many of the first `n` bits are clear. */
  function Clears(d: seq<Byte>, n: nat): nat {
    if n == 0 then 0 else Clears(d, n - 1) + if BitIn(d, n - 1) then 0 else 1
  }

  /** `data[byte] |= 1 << bit` and `data[byte] &= !(1 << bit)`. */
  function WithBit(d: seq<Byte>, i: nat, value: bool): (r: seq<Byte>)
    requires i / 8 < |d|
    ensures |r| == |d|
    ensures forall j: nat :: BitIn(r, j) == if j == i then value else BitIn(d, j)
  {
    var w := d[i / 8] as nat;
    ByteOps(w, i % 8);
    var b: Byte := if value then Or(w, Pow2(i % 8)) else AndNot(w, Pow2(i % 8));
    assert forall j: nat {:trigger BitIn(d, j)} :: BitIn(d[i / 8 := b], j) == if j == i then value else BitIn(d, j) by {
      forall j: nat ensures BitIn(d[i / 8 := b], j) == if j == i then value else BitIn(d, j) {
        SetClear(w, i % 8, j % 8);
        SameBit(i, j);
      }
    }
    d[i / 8 := b]
  }

  lemma ByteOps(w: nat, k: nat)
    requires w < 256 && k < 8
    ensures Or(w, Pow2(k)) < 256 && AndNot(w, Pow2(k)) < 256
  {
    assert Pow2(8) == 256 by { assert Pow2(4) == 16; }
    Pow2Mono(k, 7);
    hide Or, AndNot, And;
    OrBound(w, Pow2(k), 8);
    AndNotRest(w, Pow2(k));
  }

  lemma SameBit(a: nat, b: nat)
    ensures a / 8 == b / 8 && a % 8 == b % 8 <==> a == b
  {
  }

  /** One bit changed changes the count by one, if it is counted and did change. */
  lemma {:induction false} ClearsWith(d: seq<Byte>, i: nat, value: bool, n: nat)
    requires i / 8 < |d|
    ensures Clears(WithBit(d, i, value), n) ==
            Clears(d, n) + if i < n && BitIn(d, i) != value then (if value then -1 else 1) else 0
  {
    hide WithBit, BitIn;
    if n > 0 { ClearsWith(d, i, value, n - 1); }
  }

  lemma {:induction false} ClearsSome(d: seq<Byte>, n: nat)
    ensures Clears(d, n) == 0 <==> forall i: nat :: i < n ==> BitIn(d, i)
  {
    hide BitIn;
    if n > 0 { ClearsSome(d, n - 1); }
  }

  /** The first clear bit among the first `size`, skipping full bytes. */
  method FindFirstClear(d: seq<Byte>, size: nat) returns (r: Option<nat>)
    requires size <= 8 * |d|
    ensures r.Some? ==> r.value < size && !BitIn(d, r.value) && forall i: nat :: i < r.value ==> BitIn(d, i)
    ensures r.None? ==> forall i: nat :: i < size ==> BitIn(d, i)
  {
    hide Bit;
    for b := 0 to |d|
      invariant forall i: nat :: i < 8 * b && i < size ==> BitIn(d, i)
    {
      if d[b] as nat != 0xFF {
        for bit := 0 to 8
          invariant forall i: nat :: i < 8 * b + bit && i < size ==> BitIn(d, i)
        {
          var index := 8 * b + bit;
          if index >= size { return None; }
          InByte(b, bit);
          AndBit(d[b] as nat, bit);
          if And(d[b] as nat, Pow2(bit)) == 0 { return Some(index); }
        }
      } else {
        FullByte(d, b);
      }
    }
    r := None;
  }

  lemma InByte(b: nat, bit: nat)
    requires bit < 8
    ensures (8 * b + bit) / 8 == b && (8 * b + bit) % 8 == bit
  {
  }

  lemma FullByte(d: seq<Byte>, b: nat)
    requires b < |d| && d[b] as nat == 0xFF
    ensures forall i: nat :: 8 * b <= i < 8 * b + 8 ==> BitIn(d, i)
  {
    forall i: nat | 8 * b <= i < 8 * b + 8 ensures BitIn(d, i) { OnesBit(i % 8); }
  }

  lemma OnesBit(k: nat)
    requires k < 8
    ensures Bit(255, k)
  {
    assert Pow2(0) == 1 && Pow2(1) == 2 && Pow2(2) == 4 && Pow2(3) == 8 && Pow2(4) == 16 && Pow2(5) == 32 && Pow2(6) == 64 && Pow2(7) == 128;
  }

  // ---- groups ----

  /** A block group: its bitmap block and its free counter. */
  datatype Group = Group(bitmap: seq<Byte>, free: nat)

  function Total(groups: seq<Group>): nat {
    if groups == [] then 0 else Total(groups[..|groups| - 1]) + groups[|groups| - 1].free
  }

  lemma {:induction false} TotalWith(groups: seq<Group>, k: nat, g: Group)
    requires k < |groups|
    ensures Total(groups[k := g]) + groups[k].free == Total(groups) + g.free
  {
    var n := |groups| - 1;
    if k < n {
      TotalWith(groups[..n], k, g);
      assert groups[k := g][..n] == groups[..n][k := g];
    } else {
      assert groups[k := g][..n] == groups[..n];
    }
  }

  lemma {:induction false} TotalZero(groups: seq<Group>)
    ensures Total(groups) == 0 <==> forall k :: 0 <= k < |groups| ==> groups[k].free == 0
  {
    if groups != [] {
      var n := |groups| - 1;
      TotalZero(groups[..n]);
      assert forall k :: 0 <= k < n ==> groups[..n][k] == groups[k];
      if forall k :: 0 <= k < n ==> groups[..n][k].free == 0 {
        assert forall k :: 0 <= k < n ==> groups[k].free == 0;
      }
    }
  }

  class BlockAllocator {
    const perGroup: nat
    const firstData: nat
    const count: nat                     // blocks of the volume
    var groups: seq<Group>
    var freeBlocks: nat                  // the superblock's counter

    /** The last group can be shorter. */
    function GroupSize(g: nat): nat
      requires firstData + g * perGroup <= count
    {
      if perGroup < count - (firstData + g * perGroup) then perGroup else count - (firstData + g * perGroup)
    }

    /** Both counters equal the clear bits. */
    ghost predicate Valid()
      reads this
    {
      && perGroup > 0 && freeBlocks == Total(groups)
      && (forall g :: 0 <= g < |groups| ==> GroupOk(g, groups[g]))
    }

    ghost predicate GroupOk(g: nat, group: Group) {
      firstData + g * perGroup < count && perGroup <= 8 * |group.bitmap| && group.free == Clears(group.bitmap, GroupSize(g))
    }

    /** Block `b` belongs to a group of the volume. */
    ghost predicate InVolume(b: nat)
      reads this
    {
      perGroup > 0 && firstData <= b < count && (b - firstData) / perGroup < |groups|
    }

    /** Block `b` is free: its bit is clear. */
    ghost predicate IsFree(b: nat)
      reads this
    {
      FreeIn(groups, firstData, perGroup, count, b)
    }

    /** Allocate a block, looking from the goal group on and round all groups. */
    method AllocBlockGoal(goal: nat) returns (r: Result<nat>)
      requires Valid()
      modifies this`groups, this`freeBlocks
      ensures Valid() && |groups| == |old(groups)|
      ensures r.Ok? ==> old(IsFree(r.value)) && freeBlocks + 1 == old(freeBlocks) && forall b: nat :: IsFree(b) <==>
                old(IsFree(b)) && b != r.value
      ensures r.Ok? ==> exists step: nat, g: nat :: Nearest(old(groups), goal, step, g) && firstData + g * perGroup <= r.value < firstData + (g + 1) * perGroup
                          && forall b: nat :: firstData + g * perGroup <= b < r.value ==> !old(IsFree(b))
      ensures r.Err? ==> r.error == NoSpace && groups == old(groups) && freeBlocks == old(freeBlocks) == 0
      ensures r.Err? ==> forall b: nat :: !IsFree(b)
    {
      var n := |groups|;
      for step := 0 to n
        invariant Valid() && groups == old(groups) && freeBlocks == old(freeBlocks)
        invariant forall j :: 0 <= j < step ==> groups[Wrap(goal, j, n)].free == 0
      {
        var g := Wrap(goal, step, n);
        if groups[g].free != 0 {
          assert Nearest(groups, goal, step, g);
          r := TakeFrom(g);
          return;
        }
      }
      AllTried(groups, goal);
      TotalZero(groups);
      forall b: nat ensures !IsFree(b) { NoneFree(b); }
      r := Err(NoSpace);
    }

    lemma NoneFree(b: nat)
      requires Valid() && forall g :: 0 <= g < |groups| ==> groups[g].free == 0
      ensures !IsFree(b)
    {
      hide BitIn, Clears;
      if IsFree(b) {
        var g := (b - firstData) / perGroup;
        assert GroupOk(g, groups[g]);
        Place(groups, firstData, perGroup, count, b);
        ClearsSome(groups[g].bitmap, GroupSize(g));
      }
    }

    /** Take the first clear bit of a group whose counter is not zero. */
    method TakeFrom(g: nat) returns (r: Result<nat>)
      requires Valid() && g < |groups| && groups[g].free != 0
      modifies this`groups, this`freeBlocks
      ensures Valid() && |groups| == |old(groups)|
      ensures r.Ok? && old(IsFree(r.value)) && freeBlocks + 1 == old(freeBlocks)
      ensures forall b: nat :: IsFree(b) <==> old(IsFree(b)) && b != r.value
      ensures firstData + g * perGroup <= r.value < firstData + (g + 1) * perGroup
      ensures forall b: nat :: firstData + g * perGroup <= b < r.value ==> !old(IsFree(b))
    {
      hide BitIn, Clears, WithBit, FreeIn, Total;
      assert GroupOk(g, groups[g]);
      var size := GroupSize(g);
      var at := FindFirstClear(groups[g].bitmap, size);
      ClearsSome(groups[g].bitmap, size);
      var i := at.value;
      ClearsWith(groups[g].bitmap, i, true, size);
      ghost var before := groups;
      FlipFree(groups, firstData, perGroup, count, g, i, true, groups[g].free - 1);
      TotalWith(groups, g, Group(WithBit(groups[g].bitmap, i, true), groups[g].free - 1));
      groups := groups[g := Group(WithBit(groups[g].bitmap, i, true), groups[g].free - 1)];
      freeBlocks := freeBlocks - 1;
      forall b: nat | firstData + g * perGroup <= b < BlockId(g, i)
        ensures !FreeIn(before, firstData, perGroup, count, b)
      {
        BlockOf(firstData, perGroup, b, g, b - firstData - g * perGroup);
        Place(before, firstData, perGroup, count, b);
      }
      assert (g + 1) * perGroup == g * perGroup + perGroup;
      r := Ok(BlockId(g, i));
    }

    /** The number of block `i` of group `g`. */
    function BlockId(g: nat, i: nat): nat { g * perGroup + i + firstData }

    /** Free a block.  The counters stay right exactly when it was an allocated block of the volume. */
    method FreeBlock(b: nat) returns (r: Result<()>)
      requires Valid()
      modifies this`groups, this`freeBlocks
      ensures |groups| == |old(groups)|
      ensures r.Ok? <==> firstData <= b && (b - firstData) / perGroup < |groups|
      ensures r.Ok? ==> (Valid() <==> b < count && !old(IsFree(b)))
      ensures r.Ok? ==>
                freeBlocks == old(freeBlocks) + 1 && forall c: nat :: IsFree(c) <==> old(IsFree(c)) || (c == b < count)
      ensures r.Err? ==> groups == old(groups) && freeBlocks == old(freeBlocks) && r.error == InvalidInput
    {
      hide BitIn, Clears, WithBit, FreeIn, Total;
      if b < firstData { return Err(InvalidInput); }
      var g, i := (b - firstData) / perGroup, (b - firstData) % perGroup;
      if g >= |groups| { return Err(InvalidInput); }
      assert GroupOk(g, groups[g]);
      Place(groups, firstData, perGroup, count, b);
      var size := GroupSize(g);
      ClearsWith(groups[g].bitmap, i, false, size);
      FlipFree(groups, firstData, perGroup, count, g, i, false, groups[g].free + 1);
      TotalWith(groups, g, Group(WithBit(groups[g].bitmap, i, false), groups[g].free + 1));
      groups := groups[g := Group(WithBit(groups[g].bitmap, i, false), groups[g].free + 1)];
      freeBlocks := freeBlocks + 1;
      assert GroupOk(g, groups[g]) <==> b < count && !old(IsFree(b));
      r := Ok(());
    }
  }

  ghost predicate FreeIn(groups: seq<Group>, first: nat, per: nat, count: nat, b: nat) {
    && per > 0 && first <= b < count && (b - first) / per < |groups|
    && !BitIn(groups[(b - first) / per].bitmap, (b - first) % per)
  }

  /** Where a block's bit lies. */
  lemma Place(groups: seq<Group>, first: nat, per: nat, count: nat, b: nat)
    requires per > 0 && first <= b && (b - first) / per < |groups|
    ensures var (g, i) := ((b - first) / per, (b - first) % per);
      b == g * per + i + first && i < per && (FreeIn(groups, first, per, count, b) <==> b < count && !BitIn(groups[g].bitmap, i))
  {
    hide BitIn;
    QuotRem(b - first, per);
  }

  /** Changing the bit of one block of the volume changes that block only. */
  lemma FlipFree(groups: seq<Group>, first: nat, per: nat, count: nat, g: nat, i: nat, value: bool, free: nat)
    requires g < |groups| && i < per && i / 8 < |groups[g].bitmap|
    ensures var groups1 := groups[g := Group(WithBit(groups[g].bitmap, i, value), free)]; var id := g * per + i + first;
      && (FreeIn(groups, first, per, count, id) <==> id < count && !BitIn(groups[g].bitmap, i))
      && forall b: nat :: FreeIn(groups1, first, per, count, b) <==> if b == id < count then !value else FreeIn(groups, first, per, count, b)
  {
    hide WithBit, BitIn, FreeIn;
    var groups1 := groups[g := Group(WithBit(groups[g].bitmap, i, value), free)];
    var id := g * per + i + first;
    Place(groups, first, per, count, id) by { BlockOf(first, per, id, g, i); }
    BlockOf(first, per, id, g, i);
    forall b: nat
      ensures FreeIn(groups1, first, per, count, b) <==> if b == id < count then !value else FreeIn(groups, first, per, count, b)
    {
      FlipBlock(groups, first, per, count, g, i, value, free, b);
    }
  }

  lemma FlipBlock(groups: seq<Group>, first: nat, per: nat, count: nat, g: nat, i: nat, value: bool, free: nat, b: nat)
    requires g < |groups| && i < per && i / 8 < |groups[g].bitmap|
    ensures var groups1 := groups[g := Group(WithBit(groups[g].bitmap, i, value), free)];
      FreeIn(groups1, first, per, count, b) <==>
        if b == g * per + i + first < count then !value else FreeIn(groups, first, per, count, b)
  {
    hide WithBit, BitIn;
    if b >= first {
      BlockOf(first, per, b, g, i);
      var (h, k) := ((b - first) / per, (b - first) % per);
      if h < |groups| { FlipAt(groups, g, i, value, free, h, k); }
    }
  }

  lemma FlipAt(groups: seq<Group>, g: nat, i: nat, value: bool, free: nat, h: nat, k: nat)
    requires g < |groups| && i / 8 < |groups[g].bitmap| && h < |groups|
    ensures BitIn(groups[g := Group(WithBit(groups[g].bitmap, i, value), free)][h].bitmap, k) ==
            if h == g && k == i then value else BitIn(groups[h].bitmap, k)
  {
    hide WithBit;
  }

  function Wrap(goal: nat, step: nat, n: nat): (g: nat)
    requires n > 0
    ensures g < n
  {
    (goal + step) % n
  }

  /** `g` is the first group from the goal on, round all groups, whose counter is not zero. */
  ghost predicate Nearest(groups: seq<Group>, goal: nat, step: nat, g: nat) {
    && step < |groups| && g == Wrap(goal, step, |groups|) && groups[g].free != 0
    && forall j :: 0 <= j < step ==> groups[Wrap(goal, j, |groups|)].free == 0
  }

  /** Going round once reaches every group. */
  lemma AllTried(groups: seq<Group>, goal: nat)
    requires forall j :: 0 <= j < |groups| ==> groups[Wrap(goal, j, |groups|)].free == 0
    ensures forall k :: 0 <= k < |groups| ==> groups[k].free == 0
  {
    var n := |groups|;
    forall k | 0 <= k < n ensures groups[k].free == 0 {
      var j := Reach(goal, k, n);
      assert groups[Wrap(goal, j, n)].free == 0;
    }
  }

  lemma Reach(goal: nat, k: nat, n: nat) returns (j: nat)
    requires k < n
    ensures j < n && Wrap(goal, j, n) == k
  {
    QuotRem(goal, n);
    var q, s := goal / n, goal % n;
    if s <= k {
      j := k - s;
      ModUnique(goal + j, n, q, k);
    } else {
      j := n + k - s;
      ModUnique(goal + j, n, q + 1, k);
    }
  }

  lemma BlockOf(first: nat, per: nat, b: nat, g: nat, i: nat)
    requires b >= first && per > 0 && i < per
    ensures (b - first) / per == g && (b - first) % per == i <==> b == g * per + i + first
  {
    QuotRem(b - first, per);
    ModUnique(g * per + i, per, g, i);
  }
}
