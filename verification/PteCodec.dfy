/** The entry codecs of the three architectures, as operations on machine words. */
module PteCodec {
  import opened Bits
  import opened PageTable

  const ADDRESS_MASK: nat := 0xFFFF_FFFF_F000

  lemma Powers()
    ensures Pow2(10) == 1024 && Pow2(12) == 4096 && Pow2(20) == 1048576 && Pow2(48) == PHYS_LIMIT
    ensures Pow2(54) == 0x40_0000_0000_0000
    ensures Pow2(0) == 1 && Pow2(1) == 2 && Pow2(2) == 4 && Pow2(3) == 8 && Pow2(4) == 16 && Pow2(6) == 64
    ensures Pow2(7) == 128
  {
    assert Pow2(8) == 256;
    assert Pow2(16) == 65536;
    assert Pow2(24) == 16777216;
    assert Pow2(32) == 4294967296;
    assert Pow2(40) == 1099511627776;
  }

  /** The address field of a word. */
  lemma AddressField(w: nat)
    ensures And(w, ADDRESS_MASK) == w % PHYS_LIMIT - w % 4096
  {
    Powers();
    AndRange(w, 12, 48);
  }

  lemma PageNumber(p: nat, x: nat)
    requires p % 4096 == 0 && p < PHYS_LIMIT && x < 4096
    ensures p + x < PHYS_LIMIT && (p + x) % 4096 == x
  {
    var q := p / 4096;
    assert p == 4096 * q;
  }

  lemma Small(x: nat, d: nat)
    requires x < d
    ensures x % d == x
  {
  }

  /** An address that leaves the flag bits free is kept beside them. */
  lemma FieldAddress(p: nat, x: nat)
    requires p % 4096 == 0 && p < PHYS_LIMIT && x < 4096
    ensures And(p + x, ADDRESS_MASK) == p
  {
    hide And;
    AddressField(p + x);
    PageNumber(p, x);
    Small(p + x, PHYS_LIMIT);
  }

  /** A flag bit of a word with such an address. */
  lemma FieldBit(p: nat, x: nat, k: nat)
    requires p % 4096 == 0 && k < 12
    ensures Bit(p + x, k) == Bit(x, k)
  {
    Powers();
    hide Pow2, Bit;
    BitLow(p, x, k, 12);
  }

  /** A test of one bit below the address. */
  lemma FieldTest(p: nat, x: nat, k: nat)
    requires p % 4096 == 0 && k < 12
    ensures And(p + x, Pow2(k)) != 0 <==> Bit(x, k)
  {
    hide And, Bit;
    FieldBit(p, x, k);
    AndBit(p + x, k);
  }

  // ---- x86_64 ----

  function X86Flags(f: Flags): nat {
    var h := if f.w then Or(1, 2) else 1;
    if f.u then Or(h, 4) else h
  }

  function X86Leaf(p: nat, f: Flags, level: nat): nat {
    if level == 0 then Or(p, X86Flags(f)) else Or(Or(p, X86Flags(f)), 128)
  }

  function X86(): Codec {
    Codec(
      (w: nat) => And(w, 1) != 0,
      (w: nat, level: nat) => if level == 0 then And(w, 1) != 0 else And(w, 128) != 0,
      (w: nat, level: nat) => And(w, ADDRESS_MASK),
      (w: nat) => Flags(true, And(w, 2) != 0, true, And(w, 4) != 0),
      (p: nat, f: Flags, level: nat) => X86Leaf(p, f, level),
      (p: nat) => Or(Or(Or(p, 1), 2), 4),
      (f: Flags) => Flags(true, f.w, true, f.u),
      (f: Flags) => true,
      (p: nat, level: nat) => p)
  }

  function B(b: bool, v: nat): nat { if b then v else 0 }

  lemma X86LeafValue(p: nat, f: Flags, level: nat)
    requires p % 4096 == 0
    ensures X86Leaf(p, f, level) == p + (1 + B(f.w, 2) + B(f.u, 4) + B(level != 0, 128))
  {
    hide Or, Pow2;
    Powers();
    X86Literals();
    OrSum(p, X86Flags(f), 12);
    OrLow(p, X86Flags(f), 128, 12);
  }

  /** Setting one of the low bits, clear before. */
  lemma SetBit(x: nat, k: nat, v: nat)
    requires k <= 10 && v == Pow2(k) && x / v % 2 == 0
    ensures Or(x, v) == x + v
  {
    hide Or, Pow2;
    OrBit(x, k);
  }

  lemma X86Literals()
    ensures Or(1, 2) == 3 && Or(1, 4) == 5 && Or(3, 4) == 7
    ensures Or(1, 128) == 129 && Or(3, 128) == 131 && Or(5, 128) == 133 && Or(7, 128) == 135
  {
    hide Or, Pow2;
    Powers();
    SetBit(1, 1, 2);
    SetBit(1, 2, 4);
    SetBit(3, 2, 4);
    SetBit(1, 7, 128);
    SetBit(3, 7, 128);
    SetBit(5, 7, 128);
    SetBit(7, 7, 128);
  }

  lemma FlagBits(x: nat)
    requires x < 4096
    ensures Bit(x, 0) == (x % 2 == 1) && Bit(x, 1) == (x / 2 % 2 == 1) && Bit(x, 2) == (x / 4 % 2 == 1)
    ensures Bit(x, 6) == (x / 64 % 2 == 1) && Bit(x, 7) == (x / 128 % 2 == 1)
  {
    Powers();
  }

  /** What the four tests of an x86_64 entry read. */
  lemma X86Reads(p: nat, x: nat)
    requires p % 4096 == 0 && p < PHYS_LIMIT && x < 4096
    ensures And(p + x, 1) != 0 <==> x % 2 == 1
    ensures And(p + x, 2) != 0 <==> x / 2 % 2 == 1
    ensures And(p + x, 4) != 0 <==> x / 4 % 2 == 1
    ensures And(p + x, 128) != 0 <==> x / 128 % 2 == 1
    ensures And(p + x, ADDRESS_MASK) == p
  {
    hide And, Bit;
    Powers();
    FieldTest(p, x, 0);
    FieldTest(p, x, 1);
    FieldTest(p, x, 2);
    FieldTest(p, x, 7);
    FlagBits(x);
    FieldAddress(p, x);
  }

  lemma X86LeafOk(p: nat, f: Flags, level: nat)
    requires level <= 3
    ensures LeafOk(X86(), p, f, level)
  {
    hide And, Or, Pow2;
    if LeafAddress(p, level) {
      PageAligned(p, level);
      X86LeafValue(p, f, level);
      X86Reads(p, 1 + B(f.w, 2) + B(f.u, 4) + B(level != 0, 128));
    }
  }

  lemma PageAligned(p: nat, level: nat)
    requires level <= 3 && LeafAddress(p, level)
    ensures p % 4096 == 0 && p < PHYS_LIMIT
  {
    if level == 1 {
      QuotRem(p, 2097152);
      ModUnique(p, 4096, 512 * (p / 2097152), 0);
    } else if level == 2 {
      QuotRem(p, 1073741824);
      ModUnique(p, 4096, 262144 * (p / 1073741824), 0);
    } else if level == 3 {
      QuotRem(p, 549755813888);
      ModUnique(p, 4096, 134217728 * (p / 549755813888), 0);
    }
  }

  lemma X86TableOk(p: nat, level: nat)
    ensures TableOk(X86(), p, level)
  {
    hide And, Or, Pow2;
    if TableAddress(p) && 1 <= level <= 3 {
      X86TableValue(p);
      X86Reads(p, 7);
    }
  }

  lemma X86TableValue(p: nat)
    requires p % 4096 == 0
    ensures X86().table(p) == p + 7
  {
    hide Or, Pow2;
    Powers();
    X86Literals();
    OrSum(p, 1, 12);
    OrLow(p, 1, 2, 12);
    OrLow(p, 3, 4, 12);
  }

  /** The words: present 1, writable 2, user 4 and, above the last level, large 128; tables grant everything. */
  lemma X86Words(p: nat, f: Flags, level: nat)
    requires p % 4096 == 0
    ensures X86().table(p) == p + 1 + 2 + 4
    ensures X86().leaf(p, f, level) == p + 1 + B(f.w, 2) + B(f.u, 4) + B(level != 0, 128)
  {
    X86TableValue(p);
    X86LeafValue(p, f, level);
  }

  predicate AllSet(words: seq<nat>, mask: nat) { forall i :: 0 <= i < |words| ==> And(words[i], mask) != 0 }

  /** The processor grants what all entries on its way grant: exactly what the flags of the leaf say. */
  lemma X86Grants(tables: seq<nat>, p: nat, f: Flags, level: nat)
    requires level <= 3 && LeafAddress(p, level) && forall i :: 0 <= i < |tables| ==> TableAddress(tables[i])
    ensures var words := seq(|tables|, i requires 0 <= i < |tables| => X86().table(tables[i])) + [X86().leaf(p, f, level)];
      AllSet(words, 1) && (AllSet(words, 2) <==> f.w) && (AllSet(words, 4) <==> f.u)
  {
    hide And, Or, Pow2;
    var words := seq(|tables|, i requires 0 <= i < |tables| => X86().table(tables[i])) + [X86().leaf(p, f, level)];
    forall i | 0 <= i < |tables| ensures And(words[i], 1) != 0 && And(words[i], 2) != 0 && And(words[i], 4) != 0 {
      X86TableValue(tables[i]);
      X86Reads(tables[i], 7);
    }
    PageAligned(p, level);
    X86LeafValue(p, f, level);
    X86Reads(p, 1 + B(f.w, 2) + B(f.u, 4) + B(level != 0, 128));
    assert words[|tables|] == X86().leaf(p, f, level);
  }

  /** x86_64 keeps the contract at every level; present always reads as readable and executable. */
  lemma X86Ok()
    ensures CodecOk(X86())
    ensures forall f: Flags :: X86().norm(f) == f <==> f.r && f.x
  {
    forall p: nat, f, level: nat | level <= 3 ensures LeafOk(X86(), p, f, level) { X86LeafOk(p, f, level); }
    forall p: nat, level: nat ensures TableOk(X86(), p, level) { X86TableOk(p, level); }
    forall p: nat, level: nat | level <= 3 ensures HeldOk(X86(), p, level) { }
    assert !X86().present(0);
  }

  // ---- aarch64 ----

  const UXN: nat := 0x40_0000_0000_0000

  /** Access permissions: read-only and EL0 bits, and execute-never far above the address. */
  function ArmFlags(f: Flags): nat {
    var a := if !f.w then Or(0, 128) else 0;
    var b := if f.u then Or(a, 64) else a;
    if !f.x then Or(b, UXN) else b
  }

  function ArmLeaf(p: nat, f: Flags, level: nat): nat {
    if level == 0 then Or(Or(Or(Or(Or(p, 1), 2), 1024), 4), ArmFlags(f)) else Or(Or(Or(Or(p, 1), 1024), 4), ArmFlags(f))
  }

  function Arm(): Codec {
    Codec(
      (w: nat) => And(w, 1) != 0,
      (w: nat, level: nat) => if level == 0 then And(w, 1) != 0 else And(w, 1) != 0 && And(w, 2) == 0,
      (w: nat, level: nat) => And(w, ADDRESS_MASK),
      (w: nat) => Flags(true, And(w, 128) == 0, And(w, UXN) == 0, And(w, 64) != 0),
      (p: nat, f: Flags, level: nat) => ArmLeaf(p, f, level),
      (p: nat) => Or(Or(p, 1), 2),
      (f: Flags) => Flags(true, f.w, f.x, f.u),
      (f: Flags) => true,
      (p: nat, level: nat) => p)
  }

  lemma ArmLiterals()
    ensures Or(1, 2) == 3 && Or(3, 1024) == 1027 && Or(1027, 4) == 1031 && Or(1, 1024) == 1025 && Or(1025, 4) == 1029
  {
    hide Or, Pow2;
    Powers();
    SetBit(1, 1, 2);
    SetBit(3, 10, 1024);
    SetBit(1027, 2, 4);
    SetBit(1, 10, 1024);
    SetBit(1025, 2, 4);
  }

  lemma ApLiterals()
    ensures Or(0, 128) == 128 && Or(128, 64) == 192 && Or(0, 64) == 64
  {
    hide Or, Pow2;
    Powers();
    SetBit(0, 7, 128);
    SetBit(128, 6, 64);
    SetBit(0, 6, 64);
  }

  /** The permission bits lie between the low attributes and the access flag. */
  lemma ApField(v: nat, y: nat)
    requires v < 64 && y % 64 == 0 && y < 1024
    ensures Or(1024 + v, y) == 1024 + v + y
  {
    hide Or, Pow2;
    Powers();
    OrLow(1024, v, y, 10);
    OrComm(v, y);
    OrSum(y, v, 6);
  }

  /** Or-ing permissions onto a word below bit 54. */
  lemma OrPermissions(p: nat, x: nat, f: Flags)
    requires p % 4096 == 0 && p < PHYS_LIMIT && x < 4096
    ensures Or(p + x, ArmFlags(f)) == p + Or(x, B(!f.w, 128) + B(f.u, 64)) + B(!f.x, UXN)
  {
    hide Or, Pow2;
    Powers();
    ApLiterals();
    var low := B(!f.w, 128) + B(f.u, 64);
    PageNumber(p, x);
    OrLow(p, x, low, 12);
    if !f.x {
      UxnMultiple();
      OrComm(low, UXN);
      OrSum(UXN, low, 54);
      OrComm(p + x, UXN + low);
      OrLow(UXN, low, p + x, 54);
      OrComm(low, p + x);
    }
  }

  lemma UxnMultiple()
    ensures UXN % Pow2(54) == 0 && PHYS_LIMIT <= Pow2(54) && UXN == Pow2(54)
  {
    Powers();
  }

  lemma ArmLeafValue(p: nat, f: Flags, level: nat)
    requires p % 4096 == 0 && p < PHYS_LIMIT
    ensures ArmLeaf(p, f, level) == p + (1029 + B(level == 0, 2) + B(!f.w, 128) + B(f.u, 64)) + B(!f.x, UXN)
  {
    hide Or, Pow2;
    Powers();
    ArmLiterals();
    ApField(7, B(!f.w, 128) + B(f.u, 64));
    ApField(5, B(!f.w, 128) + B(f.u, 64));
    OrSum(p, 1, 12);
    OrLow(p, 1, 2, 12);
    OrLow(p, 3, 1024, 12);
    OrLow(p, 1027, 4, 12);
    OrLow(p, 1, 1024, 12);
    OrLow(p, 1025, 4, 12);
    OrPermissions(p, 1031, f);
    OrPermissions(p, 1029, f);
  }

  /** What the tests of an aarch64 entry read, with or without the execute-never bit. */
  lemma ArmReads(p: nat, x: nat, h: bool)
    requires p % 4096 == 0 && p < PHYS_LIMIT && x < 4096
    ensures var w := p + x + B(h, UXN);
      && (And(w, 1) != 0 <==> x % 2 == 1) && (And(w, 2) != 0 <==> x / 2 % 2 == 1)
      && (And(w, 64) != 0 <==> x / 64 % 2 == 1) && (And(w, 128) != 0 <==> x / 128 % 2 == 1)
      && (And(w, UXN) != 0 <==> h) && And(w, ADDRESS_MASK) == p
  {
    hide And, Bit, Pow2;
    Powers();
    var q := p + B(h, UXN);
    UxnPages(p, h);
    FieldTest(q, x, 0);
    FieldTest(q, x, 1);
    FieldTest(q, x, 6);
    FieldTest(q, x, 7);
    FlagBits(x);
    UxnBit(p, x, h);
    UxnAddress(p, x, h);
  }

  lemma UxnPages(p: nat, h: bool)
    requires p % 4096 == 0
    ensures (p + B(h, UXN)) % 4096 == 0
  {
    assert UXN == 4096 * 4398046511104;
    assert p == 4096 * (p / 4096);
  }

  lemma UxnBit(p: nat, x: nat, h: bool)
    requires p % 4096 == 0 && p < PHYS_LIMIT && x < 4096
    ensures And(p + x + B(h, UXN), UXN) != 0 <==> h
  {
    hide And;
    UxnMultiple();
    PageNumber(p, x);
    var w := p + x + B(h, UXN);
    AndBit(w, 54);
    ModUnique(w, UXN, B(h, 1), p + x);
  }

  lemma UxnAddress(p: nat, x: nat, h: bool)
    requires p % 4096 == 0 && p < PHYS_LIMIT && x < 4096
    ensures And(p + x + B(h, UXN), ADDRESS_MASK) == p
  {
    hide And;
    PageNumber(p, x);
    var w := p + x + B(h, UXN);
    AddressField(w);
    ModUnique(w, PHYS_LIMIT, B(h, 64), p + x);
    UxnPages(p, h);
    ModUnique(w, 4096, (p + B(h, UXN)) / 4096, x);
  }

  lemma ArmLeafOk(p: nat, f: Flags, level: nat)
    requires level <= 3
    ensures LeafOk(Arm(), p, f, level)
  {
    hide And, Or, Pow2;
    if LeafAddress(p, level) {
      PageAligned(p, level);
      ArmLeafValue(p, f, level);
      ArmReads(p, 1029 + B(level == 0, 2) + B(!f.w, 128) + B(f.u, 64), !f.x);
    }
  }

  lemma ArmTableOk(p: nat, level: nat)
    ensures TableOk(Arm(), p, level)
  {
    hide And, Or, Pow2;
    if TableAddress(p) && 1 <= level <= 3 {
      ArmTableValue(p);
      ArmReads(p, 3, false);
    }
  }

  lemma ArmTableValue(p: nat)
    requires p % 4096 == 0
    ensures Arm().table(p) == p + 3
  {
    hide Or, Pow2;
    Powers();
    ArmLiterals();
    OrSum(p, 1, 12);
    OrLow(p, 1, 2, 12);
  }

  /** The words: valid 1, table or page 2, memory attributes 4, EL0 64, read-only 128, accessed 1024, execute-never
      at bit 54; tables restrict nothing. */
  lemma ArmWords(p: nat, f: Flags, level: nat)
    requires p % 4096 == 0 && p < PHYS_LIMIT
    ensures Arm().table(p) == p + 1 + 2
    ensures Arm().leaf(p, f, level) ==
            p + 1 + B(level == 0, 2) + 4 + B(f.u, 64) + B(!f.w, 128) + 1024 + B(!f.x, 0x40_0000_0000_0000)
  {
    ArmTableValue(p);
    ArmLeafValue(p, f, level);
  }

  /** aarch64 keeps the contract at every level; present always reads as readable. */
  lemma ArmOk()
    ensures CodecOk(Arm())
    ensures forall f: Flags :: Arm().norm(f) == f <==> f.r
  {
    forall p: nat, f, level: nat | level <= 3 ensures LeafOk(Arm(), p, f, level) { ArmLeafOk(p, f, level); }
    forall p: nat, level: nat ensures TableOk(Arm(), p, level) { ArmTableOk(p, level); }
    forall p: nat, level: nat | level <= 3 ensures HeldOk(Arm(), p, level) { }
    assert !Arm().present(0);
  }

  // ---- riscv64 ----

  function RvFlags(f: Flags): nat {
    var a := if f.r then Or(1, Or(2, 64)) else 1;
    var b := if f.w then Or(a, Or(4, 128)) else a;
    var d := if f.x then Or(b, 8) else b;
    if f.u then Or(d, 16) else d
  }

  /** The address is stored two bits lower; the 2 MiB encoder also clears word bits 10 to 19. */
  function RvLeaf(p: nat, f: Flags, level: nat): nat {
    var x := p / 4;
    if level == 1 then Or(AndNot(x, 0xFFC00), RvFlags(f)) else Or(x, RvFlags(f))
  }

  function RvAddress(w: nat): nat { And(w * 4 % 0x1_0000_0000_0000_0000, ADDRESS_MASK) }

  function Rv(): Codec {
    Codec(
      (w: nat) => And(w, 1) != 0,
      (w: nat, level: nat) => And(w, 1) != 0 && And(w, 14) != 0,
      (w: nat, level: nat) => RvAddress(w),
      (w: nat) => Flags(And(w, 2) != 0, And(w, 4) != 0, And(w, 8) != 0, true),
      (p: nat, f: Flags, level: nat) => RvLeaf(p, f, level),
      (p: nat) => Or(p / 4, 1),
      (f: Flags) => Flags(f.r, f.w, f.x, true),
      (f: Flags) => f.r || f.w || f.x,
      (p: nat, level: nat) => if level == 1 then p - p % 4194304 else p)
  }

  lemma RvLiterals()
    ensures Or(2, 64) == 66 && Or(1, 66) == 67 && Or(4, 128) == 132 && Or(1, 132) == 133 && Or(67, 132) == 199
  {
    hide Or, Pow2;
    Powers();
    SetBit(2, 6, 64);
    SetBit(66, 0, 1);
    OrComm(1, 66);
    SetBit(4, 7, 128);
    SetBit(132, 0, 1);
    OrComm(1, 132);
    OrFour(67);
  }

  lemma OrFour(x: nat)
    requires x == 67
    ensures Or(x, 132) == 199
  {
  }

  lemma RvLiteralsX()
    ensures Or(1, 8) == 9 && Or(67, 8) == 75 && Or(133, 8) == 141 && Or(199, 8) == 207
  {
    hide Or, Pow2;
    Powers();
    SetBit(1, 3, 8);
    SetBit(67, 3, 8);
    SetBit(133, 3, 8);
    SetBit(199, 3, 8);
  }

  lemma RvLiteralsU()
    ensures Or(1, 16) == 17 && Or(67, 16) == 83 && Or(133, 16) == 149 && Or(199, 16) == 215
    ensures Or(9, 16) == 25 && Or(75, 16) == 91 && Or(141, 16) == 157 && Or(207, 16) == 223
  {
    hide Or, Pow2;
    Powers();
    SetBit(1, 4, 16);
    SetBit(67, 4, 16);
    SetBit(133, 4, 16);
    SetBit(199, 4, 16);
    SetBit(9, 4, 16);
    SetBit(75, 4, 16);
    SetBit(141, 4, 16);
    SetBit(207, 4, 16);
  }

  lemma RvFlagsValue(f: Flags)
    ensures RvFlags(f) == 1 + B(f.r, 66) + B(f.w, 132) + B(f.x, 8) + B(f.u, 16)
  {
    hide Or;
    RvLiterals();
    RvLiteralsX();
    RvLiteralsU();
  }

  /** What the tests of a riscv64 entry read: address field `x`, flag bits `h`. */
  lemma RvReads(x: nat, h: nat)
    requires x % 1024 == 0 && 4 * x < PHYS_LIMIT && h < 1024
    ensures var w := x + h;
      && (And(w, 1) != 0 <==> h % 2 == 1) && (And(w, 2) != 0 <==> h / 2 % 2 == 1)
      && (And(w, 4) != 0 <==> h / 4 % 2 == 1) && (And(w, 8) != 0 <==> h / 8 % 2 == 1)
      && (And(w, 14) != 0 <==> h / 2 % 8 != 0) && RvAddress(w) == 4 * x
  {
    hide And, Bit, Pow2;
    RvTest(x, h, 0);
    RvTest(x, h, 1);
    RvTest(x, h, 2);
    RvTest(x, h, 3);
    RvBits(h);
    Powers();
    RvLeafBits(x, h);
    RvShift(x, h);
    FieldAddress(4 * x, 4 * h);
  }

  lemma RvTest(x: nat, h: nat, k: nat)
    requires x % 1024 == 0 && k < 10
    ensures And(x + h, Pow2(k)) != 0 <==> Bit(h, k)
  {
    Powers();
    hide And, Bit, Pow2;
    BitLow(x, h, k, 10);
    AndBit(x + h, k);
  }

  lemma RvBits(h: nat)
    ensures Bit(h, 0) == (h % 2 == 1) && Bit(h, 1) == (h / 2 % 2 == 1) && Bit(h, 2) == (h / 4 % 2 == 1)
    ensures Bit(h, 3) == (h / 8 % 2 == 1)
  {
    Powers();
  }

  lemma RvLeafBits(x: nat, h: nat)
    requires x % 1024 == 0
    ensures And(x + h, 14) != 0 <==> h / 2 % 8 != 0
  {
    hide And, Pow2;
    Powers();
    AndRange(x + h, 1, 4);
    var k := x / 1024;
    ModUnique(x + h, 16, 64 * k + h / 16, h % 16);
    ModUnique(x + h, 2, 512 * k + h / 2, h % 2);
    HalfMod(h, 4);
  }

  lemma RvShift(x: nat, h: nat)
    requires x % 1024 == 0 && 4 * x < PHYS_LIMIT && h < 1024
    ensures (x + h) * 4 % 0x1_0000_0000_0000_0000 == 4 * x + 4 * h && 4 * x % 4096 == 0
  {
    Small((x + h) * 4, 0x1_0000_0000_0000_0000);
    assert x == 1024 * (x / 1024);
  }

  lemma Quarter(p: nat)
    requires p % 4096 == 0
    ensures p / 4 % 1024 == 0 && 4 * (p / 4) == p
  {
    assert p == 4096 * (p / 4096);
  }

  /** The address field the 2 MiB encoder keeps. */
  lemma RvMega(p: nat)
    requires p % 4096 == 0
    ensures AndNot(p / 4, 0xFFC00) % 1024 == 0 && 4 * AndNot(p / 4, 0xFFC00) == p - p % 4194304
  {
    hide And, AndNot, Pow2;
    var x := p / 4;
    Quarter(p);
    AndNotRest(x, 0xFFC00);
    Powers();
    AndRange(x, 10, 20);
    QuotRem(x, 1048576);
    var q := x / 1048576;
    MegaParts(p, x, q, x % 1048576, AndNot(x, 0xFFC00));
  }

  lemma MegaParts(p: nat, x: nat, q: nat, r: nat, n: nat)
    requires p == 4 * x && x == 1048576 * q + r && r < 1048576 && n == x - r
    ensures n % 1024 == 0 && 4 * n == p - p % 4194304
  {
    ModUnique(p, 4194304, q, 4 * r);
    ModUnique(n, 1024, 1024 * q, 0);
  }

  /** The word of a leaf: an address field, all of it but at the 2 MiB level, and the flags. */
  lemma RvLeafValue(p: nat, f: Flags, level: nat)
    requires p % 4096 == 0
    ensures var x := if level == 1 then (p - p % 4194304) / 4 else p / 4;
      x % 1024 == 0 && 4 * x == (if level == 1 then p - p % 4194304 else p) && RvLeaf(p, f, level) == x + RvFlags(f) && RvFlags(f) < 1024
  {
    hide Or, And, AndNot, Pow2;
    Powers();
    RvFlagsValue(f);
    Quarter(p);
    RvMega(p);
    var x := if level == 1 then AndNot(p / 4, 0xFFC00) else p / 4;
    OrSum(x, RvFlags(f), 10);
  }

  /** The words, with the address two bits lower: valid 1, R 2, W 4, X 8, U 16, and accessed 64 with R, dirty 128
      with W; tables have none of them but the first.  The 2 MiB encoder drops the address below 4 MiB. */
  lemma RvWords(p: nat, f: Flags, level: nat)
    requires p % 4096 == 0
    ensures Rv().table(p) == p / 4 + 1
    ensures Rv().leaf(p, f, level) ==
            (if level == 1 then p - p % 4194304 else p) / 4 + 1 + B(f.r, 2 + 64) + B(f.w, 4 + 128) + B(f.x, 8) + B(f.u, 16)
  {
    hide Or, Pow2, AndNot;
    Powers();
    Quarter(p);
    OrSum(p / 4, 1, 10);
    RvLeafValue(p, f, level);
    RvFlagsValue(f);
  }

  /** Reading back an entry written for a leaf: a leaf, exact but for address bit 21 at the 2 MiB level, when it
      is readable, writable or executable or in a table of the last level; otherwise a pointer to a table. */
  lemma RvLeafReads(p: nat, f: Flags, level: nat)
    requires p % 4096 == 0 && p < PHYS_LIMIT
    ensures var w := RvLeaf(p, f, level); var a := if level == 1 then p - p % 4194304 else p;
      && Rv().present(w) && (Rv().isLeaf(w, level) <==> f.r || f.w || f.x)
      && Decode(Rv(), w, level) == if level == 0 || f.r || f.w || f.x then Leaf(a, Rv().norm(f)) else Table(a)
  {
    hide And, Or, Pow2, AndNot;
    RvLeafValue(p, f, level);
    RvFlagsValue(f);
    var x := if level == 1 then (p - p % 4194304) / 4 else p / 4;
    RvReads(x, RvFlags(f));
    RvLeafFlags(f);
  }

  lemma RvLeafFlags(f: Flags)
    ensures var h := 1 + B(f.r, 66) + B(f.w, 132) + B(f.x, 8) + B(f.u, 16);
      && h % 2 == 1 && (h / 2 % 8 != 0 <==> f.r || f.w || f.x)
      && (h / 2 % 2 == 1 <==> f.r) && (h / 4 % 2 == 1 <==> f.w) && (h / 8 % 2 == 1 <==> f.x)
  {
  }

  lemma Bit21(p: nat)
    requires p % 2097152 == 0
    ensures p % 4194304 == 0 <==> p / 2097152 % 2 == 0
  {
    var q := p / 2097152;
    QuotRem(p, 2097152);
    ModUnique(p, 4194304, q / 2, 2097152 * (q % 2));
  }

  /** riscv64 at the 2 MiB level: a leaf reads back exactly when address bit 21 is clear. */
  lemma RvMegaExact(p: nat, f: Flags)
    requires LeafAddress(p, 1)
    ensures Decode(Rv(), Rv().leaf(p, f, 1), 1) == Leaf(p, Rv().norm(f)) <==>
              p / 2097152 % 2 == 0 && (f.r || f.w || f.x)
  {
    PageAligned(p, 1);
    RvLeafReads(p, f, 1);
    Bit21(p);
  }

  /** The second 2 MiB page of memory reads back as the first. */
  lemma RvMegaCounterexample(p: nat, f: Flags)
    requires p == 0x20_0000 && f == Flags(true, true, false, true)
    ensures LeafAddress(p, 1) && Decode(Rv(), Rv().leaf(p, f, 1), 1) == Leaf(0, f)
  {
    hide Decode, RvLeaf, And, Or;
    RvLeafReads(p, f, 1);
  }

  lemma RvLeafOk(p: nat, f: Flags, level: nat)
    requires level <= 3
    ensures LeafOk(Rv(), p, f, level)
  {
    hide Decode;
    if LeafAddress(p, level) {
      PageAligned(p, level);
      RvLeafReads(p, f, level);
    }
  }

  lemma RvTableOk(p: nat, level: nat)
    ensures TableOk(Rv(), p, level)
  {
    hide And, Or, Pow2;
    if TableAddress(p) && 1 <= level <= 3 {
      Powers();
      Quarter(p);
      OrSum(p / 4, 1, 10);
      RvReads(p / 4, 1);
    }
  }

  lemma MegaAddress(p: nat)
    requires p % 2097152 == 0 && p + 2097152 <= PHYS_LIMIT
    ensures (p - p % 4194304) % 2097152 == 0
  {
    QuotRem(p, 4194304);
    ModUnique(p - p % 4194304, 2097152, 2 * (p / 4194304), 0);
  }

  /** riscv64 keeps the contract with the addresses that 2 MiB leaves hold; entries always read as user pages. */
  lemma RvOk()
    ensures CodecOk(Rv())
    ensures forall f: Flags :: Rv().norm(f) == f <==> f.u
  {
    forall p: nat, f, level: nat | level <= 3 ensures LeafOk(Rv(), p, f, level) { RvLeafOk(p, f, level); }
    forall p: nat, level: nat ensures TableOk(Rv(), p, level) { RvTableOk(p, level); }
    forall p: nat, level: nat | level <= 3 ensures HeldOk(Rv(), p, level) { if level == 1 && LeafAddress(p, 1) { MegaAddress(p); } }
    assert !Rv().present(0);
  }

  /** riscv64 in a table of pages: every entry written reads as a mapping, but it is recognised as a leaf, and so
      removed when unmapped, exactly when it is readable, writable or executable. */
  lemma RvPageSeen(p: nat, f: Flags)
    requires LeafAddress(p, 0)
    ensures var w := Rv().leaf(p, f, 0);
      Rv().present(w) && Decode(Rv(), w, 0) == Leaf(p, Rv().norm(f)) && (Rv().isLeaf(w, 0) <==> f.r || f.w || f.x)
  {
    hide Decode, RvLeaf, And, Or;
    RvLeafReads(p, f, 0);
  }

  /** riscv64 above the last level: an entry written without R, W and X reads as a pointer to a table. */
  lemma RvMegaSeen(p: nat, f: Flags)
    requires LeafAddress(p, 1)
    ensures Decode(Rv(), Rv().leaf(p, f, 1), 1).Table? <==> !f.r && !f.w && !f.x
  {
    hide RvLeaf, And, Or;
    PageAligned(p, 1);
    RvLeafReads(p, f, 1);
  }

  /** Which leaves can be split exactly: all on x86-64 and AArch64; on RISC-V every 2 MiB leaf and no 1 GiB leaf. */
  lemma SplitExact(p: nat, level: nat)
    requires level <= 3 && LeafAddress(p, level)
    ensures CanSplit(X86(), p, level) && CanSplit(Arm(), p, level)
    ensures level <= 2 ==> (CanSplit(Rv(), p, level) <==> level <= 1)
  {
    if level == 2 {
      assert LeafAddress(p + 2097152, 1) && (p + 2097152) % 4194304 == 2097152 by { OddPiece(p, 1); }
      assert Rv().held(p + 2097152, 1) != p + 2097152;
    }
  }

  /** Piece `j` of a 1 GiB leaf, as a 2 MiB leaf holds it. */
  lemma OddPiece(p: nat, j: nat)
    requires LeafAddress(p, 2) && j < 512
    ensures LeafAddress(p + 2097152 * j, 1) && (p + 2097152 * j) % 4194304 == 2097152 * (j % 2)
  {
    var q := p / 1073741824;
    QuotRem(p, 1073741824);
    ModUnique(p + 2097152 * j, 2097152, 512 * q + j, 0);
    ModUnique(p + 2097152 * j, 4194304, 256 * q + j / 2, 2097152 * (j % 2));
  }

  /** Splitting a 1 GiB leaf on RISC-V: exactly the addresses of its odd 2 MiB pieces change, each to the address
      2 MiB below. */
  lemma RvSplitChanges(t: PT, b: nat, i: nat, x: nat, words: seq<nat>, p: nat, f: Flags, va: nat)
    requires Inv(t) && t.c == Rv() && b in t.lvl && t.lvl[b] == 2 && i < ENTRIES && EntryAt(t, b, 2, i) == Leaf(p, f)
    requires x !in t.lvl && TableAddress(x) && SplitWords(Rv(), p, f, 2, words) && va < Span(t.top + 1)
    ensures FreshTable(t, b, i, x, words)
    ensures var after := FlatAt(AddTable(t, b, i, x, words), va);
      if InRegion(t, b, i, va) && va / 2097152 % 2 == 1 then after.Page? && FlatAt(t, va) == Page(after.phys + 2097152, after.flags)
      else after == FlatAt(t, va)
  {
    hide Inv, Look, CodecOk, SplitWords, Rv, InRegion;
    SplitFresh(t, b, i, x, words, p, f);
    SplitAt(t, b, i, x, words, p, f, va);
    OddPiece(p, Idx(va, 1));
    HeldMega(p + 2097152 * Idx(va, 1));
    SplitOffset(va, 2);
    PieceParity(va);
  }

  lemma HeldMega(p: nat)
    ensures Rv().held(p, 1) == p - p % 4194304
  {
  }

  lemma PieceParity(va: nat)
    ensures va / 2097152 % 512 % 2 == va / 2097152 % 2
  {
  }

  /** A root table whose entry 2 is a 1 GiB leaf for the memory at 2 GiB. */
  ghost function GigTables(f: Flags): PT {
    PT(Rv(), 2, 4096, map[4096 := seq(ENTRIES, i => if i == 2 then Rv().leaf(0x8000_0000, f, 2) else 0)], map[4096 := 2], map[4096 := 0], map[])
  }

  ghost function GigPieces(f: Flags): seq<nat> {
    seq(ENTRIES, j requires 0 <= j < ENTRIES => Rv().leaf(0x8000_0000 + Off(j, 1), f, 1))
  }

  /** There, splitting moves the address 0x80200000 from its own frame to the one at 0x80000000. */
  lemma RvSplitCounterexample(f: Flags)
    requires f == Flags(true, true, true, true)
    ensures Inv(GigTables(f)) && FreshTable(GigTables(f), 4096, 2, 8192, GigPieces(f))
    ensures FlatAt(GigTables(f), 0x8020_0000) == Page(0x8020_0000, f)
    ensures FlatAt(AddTable(GigTables(f), 4096, 2, 8192, GigPieces(f)), 0x8020_0000) == Page(0x8000_0000, f)
  {
    hide *;
    var t := GigTables(f);
    GigEntries(f);
    RvOk();
    GigInv(t, f);
    GigWords(f);
    RvSplitChanges(t, 4096, 2, 8192, GigPieces(f), 0x8000_0000, f, 0x8020_0000);
    GigLook(t, f);
  }

  lemma GigEntries(f: Flags)
    requires f == Flags(true, true, true, true)
    ensures var w := Rv().leaf(0x8000_0000, f, 2);
      Decode(Rv(), w, 2) == Leaf(0x8000_0000, f) && Rv().isLeaf(w, 2) && !Rv().present(0)
  {
    hide RvLeaf, Or;
    RvLeafReads(0x8000_0000, f, 2);
  }

  lemma GigWords(f: Flags)
    ensures SplitWords(Rv(), 0x8000_0000, f, 2, GigPieces(f)) && TableAddress(8192)
    ensures var t := GigTables(f); t.c == Rv() && t.lvl == map[4096 := 2] && t.top == 2 && 0x8020_0000 < Span(t.top + 1) && 2 < ENTRIES
  {
  }

  lemma GigInv(t: PT, f: Flags)
    requires t == GigTables(f) && f == Flags(true, true, true, true) && CodecOk(Rv()) && !Rv().present(0)
    requires var w := Rv().leaf(0x8000_0000, f, 2); Decode(Rv(), w, 2) == Leaf(0x8000_0000, f) && Rv().isLeaf(w, 2)
    ensures Inv(t) && EntryAt(t, 4096, 2, 2) == Leaf(0x8000_0000, f)
  {
    hide CodecOk, RvLeaf, And, Or;
    assert GoodPage(t, 4096);
    forall i | 0 <= i < ENTRIES ensures GoodEntry(t, 4096, i) { }
  }

  lemma GigLook(t: PT, f: Flags)
    requires t == GigTables(f) && EntryAt(t, 4096, 2, 2) == Leaf(0x8000_0000, f)
    ensures FlatAt(t, 0x8020_0000) == Page(0x8020_0000, f) && InRegion(t, 4096, 2, 0x8020_0000)
  {
    hide EntryAt, WordAt, Decode;
  }
}
