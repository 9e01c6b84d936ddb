/** What the address filters make of a buffer, address by address. */
module AddressLaws {
  import opened Machine
  import opened Bits
  import opened AddressFilters
  import opened ItaniumFilter

  // Calls and jumps of x86.

  predicate OpcodeAt(c: byte, buf: seq<byte>, k: nat) {
    k + 5 <= |buf| && (buf[k] == 0xe8 || buf[k] == c)
  }

  /** The first opcode that four more bytes follow. */
  ghost predicate FirstOpcode(c: byte, buf: seq<byte>, k: nat) {
    OpcodeAt(c, buf, k) && forall i: nat | i < k :: !OpcodeAt(c, buf, i)
  }

  /** An address, as a number with a sign. */
  function AddressAt(buf: seq<byte>, k: nat): int32
    requires k + 4 <= |buf|
  {
    Signed32(Le32(buf[k..k + 4]))
  }

  /** What becomes of an address at a position in a file of 2^24 bytes: absolute ones below that become relative to the
      position, and those that point before the file by no more than the position turn around. */
  function TurnedAddress(a: int, place: nat): int {
    if 0 <= a < 0x100_0000 then a - place else if a < 0 && a + place >= 0 then a + 0x100_0000 else a
  }

  /** A buffer without an opcode stays as it is. */
  lemma {:induction false} NoAddresses(c: byte, v5: bool, buf: seq<byte>, off: int32, decode: bool)
    requires forall i: nat :: !OpcodeAt(c, buf, i)
    ensures E8(c, v5, buf, off, decode) == buf
    decreases |buf|
  {
    hide E8;
    hide Signed32;
    if |buf| < 5 {
      E8Short(c, v5, buf, off, decode);
    } else {
      assert !OpcodeAt(c, buf, 0);
      E8Skips(c, v5, buf, off, decode);
      forall i: nat ensures !OpcodeAt(c, buf[1..], i) {
        assert !OpcodeAt(c, buf, i + 1);
      }
      NoAddresses(c, v5, buf[1..], Signed32(off as int + 1), decode);
    }
  }

  /** The walk goes on to the first opcode, changes the address after it, and goes on behind that. */
  lemma {:induction false} FirstMoved(c: byte, v5: bool, buf: seq<byte>, off: int32, decode: bool, k: nat)
    requires FirstOpcode(c, buf, k) && off as int + k < 0x8000_0000
    ensures var o := Position(v5, off as int + k);
      E8(c, v5, buf, off, decode)
        == buf[..k + 1] + Moved(buf[k + 1..k + 5], o, decode)
          + E8(c, v5, buf[k + 5..], Signed32(o as int + 4), decode)
    decreases k
  {
    hide E8;
    hide Moved;
    hide Signed32;
    hide Position;
    if k == 0 {
      E8Moves(c, v5, buf, off, decode);
    } else {
      assert !OpcodeAt(c, buf, 0);
      E8Skips(c, v5, buf, off, decode);
      SignedSmall(off as int + 1);
      forall i: nat | i < k - 1 ensures !OpcodeAt(c, buf[1..], i) {
        assert !OpcodeAt(c, buf, i + 1);
      }
      FirstMoved(c, v5, buf[1..], off as int + 1, decode, k - 1);
      var o := Position(v5, off as int + k);
      var piece, later :=
        Moved(buf[k + 1..k + 5], o, decode), E8(c, v5, buf[k + 5..], Signed32(o as int + 4), decode);
      assert buf[1..][..k] == buf[1..k + 1] && buf[1..][k..k + 4] == buf[k + 1..k + 5];
      assert buf[1..][k + 4..] == buf[k + 5..];
      assert [buf[0]] + (buf[1..k + 1] + piece + later) == buf[..k + 1] + piece + later;
    }
  }

  /** Positions count in a file of 2^24 bytes: starting that much further on is the same. */
  lemma {:induction false} SamePositions(c: byte, buf: seq<byte>, off: int32, off': int32, decode: bool)
    requires 0 <= off && off as int + |buf| < 0x8000_0000 && 0 <= off' && off' as int + |buf| < 0x8000_0000
    requires off % 0x100_0000 == off' % 0x100_0000
    ensures E8(c, true, buf, off, decode) == E8(c, true, buf, off', decode)
    decreases |buf|
  {
    hide E8;
    hide Moved;
    hide Signed32;
    if |buf| < 5 {
      E8Short(c, true, buf, off, decode);
      E8Short(c, true, buf, off', decode);
    } else {
      SignedSmall(off as int + 1);
      SignedSmall(off' as int + 1);
      NextPosition(off, off');
      if Opens(c, buf) {
        E8Moves(c, true, buf, off, decode);
        E8Moves(c, true, buf, off', decode);
      } else {
        E8Skips(c, true, buf, off, decode);
        E8Skips(c, true, buf, off', decode);
        SamePositions(c, buf[1..], off as int + 1, off' as int + 1, decode);
      }
    }
  }

  lemma NextPosition(x: int, y: int)
    requires x % 0x100_0000 == y % 0x100_0000
    ensures (x + 1) % 0x100_0000 == (y + 1) % 0x100_0000
  {}

  lemma MovedAddress(field: seq<byte>, place: nat)
    requires |field| == 4 && place < 0x100_0000
    ensures Signed32(Le32(Moved(field, place, true))) == TurnedAddress(Signed32(Le32(field)), place)
  {
    hide Le32;
    hide PutLe32;
    hide Signed32;
    hide Wrap32;
    var addr := Signed32(Le32(field));
    Turns(addr, place);
    PutBack(Wrap32(Relative(addr, place)));
    SignedBack(Relative(addr, place));
  }

  /** Up to the first opcode nothing changes; the address after it turns by its position, counted from the start of the
      file in rounds of 2^24; and what follows is filtered from its own position on. */
  lemma CallTurned(c: byte, buf: seq<byte>, off: int32, k: nat)
    requires FirstOpcode(c, buf, k) && 0 <= off && off as int + |buf| < 0x8000_0000
    ensures var r := E8(c, true, buf, off, true);
      && r[..k + 1] == buf[..k + 1]
      && AddressAt(r, k + 1) == TurnedAddress(AddressAt(buf, k + 1), (off as int + k + 1) % 0x100_0000)
      && r[k + 5..] == E8(c, true, buf[k + 5..], off as int + k + 5, true)
  {
    hide E8;
    hide Moved;
    hide Signed32;
    hide Le32;
    SignedSmall(off as int + k + 1);
    var place := (off as int + k + 1) % 0x100_0000;
    assert Position(true, off as int + k) == place;
    FirstMoved(c, true, buf, off, true, k);
    MovedAddress(buf[k + 1..k + 5], place);
    SignedSmall(place + 4);
    FourOn(off as int + k + 1);
    SmallRest(place + 4, off as int + k + 5, |buf| - k - 5);
    SamePositions(c, buf[k + 5..], place + 4, off as int + k + 5, true);
    var r := E8(c, true, buf, off, true);
    assert r[k + 1..k + 5] == Moved(buf[k + 1..k + 5], place, true);
  }

  lemma FourOn(x: nat)
    ensures (x % 0x100_0000 + 4) % 0x100_0000 == (x + 4) % 0x100_0000 && x % 0x100_0000 <= x
  {}

  lemma SmallRest(a: nat, b: nat, n: nat)
    requires a <= b && b + n < 0x8000_0000
    ensures a + n < 0x8000_0000
  {}

  // Branches of ARM.

  lemma LaterSlice(s: seq<byte>, a: nat, b: nat)
    requires 4 <= a <= b <= |s|
    ensures s[4..][a - 4..b - 4] == s[a..b]
  {}

  /** The four bytes of an instruction, decoded with a place. */
  function Instruction(b: seq<byte>, place: nat): (r: seq<byte>)
    requires |b| == 4
    ensures |r| == 4
  {
    (if b[3] == 0xeb then ArmMoved(b[0..3], place, true) else b[0..3]) + [b[3]]
  }

  lemma ArmFirst(buf: seq<byte>, offset: int, i: nat)
    requires |buf| > 3
    ensures Arm(buf, offset, i, true)
      == Instruction(buf[0..4], ArmPlace(offset, i)) + Arm(buf[4..], offset, i + 4, true)
  {
    hide ArmMoved;
    hide ArmPlace;
    hide Arm;
    ArmStep(buf, offset, i);
    assert buf[0..4][0..3] == buf[0..3] && buf[0..4][3] == buf[3];
  }

  /** Instruction m is changed by its own place. */
  lemma {:induction false} InstructionMoved(buf: seq<byte>, offset: int, i: nat, m: nat)
    requires 4 * m + 4 <= |buf|
    ensures Arm(buf, offset, i, true)[4 * m..4 * m + 4]
      == Instruction(buf[4 * m..4 * m + 4], ArmPlace(offset, i + 4 * m))
    decreases m
  {
    hide *;
    ArmFirst(buf, offset, i);
    var r, rest := Arm(buf, offset, i, true), Arm(buf[4..], offset, i + 4, true);
    if m == 0 {
      assert r[0..4] == Instruction(buf[0..4], ArmPlace(offset, i));
    } else {
      assert r[4..] == rest;
      InstructionMoved(buf[4..], offset, i + 4, m - 1);
      LaterSlice(r, 4 * m, 4 * m + 4);
      LaterSlice(buf, 4 * m, 4 * m + 4);
      assert i + 4 + 4 * (m - 1) == i + 4 * m;
    }
  }

  /** An instruction whose top byte is that of a branch-and-link has its place in the file, counted in instructions,
      taken from its lower 24 bits; the others stay. */
  lemma BranchTurned(buf: seq<byte>, offset: int, m: nat)
    requires 4 * m + 4 <= |buf| && offset >= 0 && offset + |buf| < 0x1_0000_0000_0000_0000
    ensures var b, b' := buf[4 * m..4 * m + 4], Arm(buf, offset, 0, true)[4 * m..4 * m + 4];
      if b[3] == 0xeb then b'[3] == 0xeb && Le24(b'[..3]) == (Le24(b[..3]) - (offset + 4 * m) / 4) % 0x100_0000
      else b' == b
  {
    hide Le24;
    hide PutLe24;
    hide Arm;
    var b := buf[4 * m..4 * m + 4];
    InstructionMoved(buf, offset, 0, m);
    PlaceHere(offset, 4 * m);
    var place := (offset + 4 * m) / 4;
    PutLe24Back(Le24(b[0..3]) - place);
    assert b[0..3] == b[..3] && b == b[0..3] + [b[3]];
    assert b[3] == 0xeb ==> Instruction(b, place)[..3] == ArmMoved(b[0..3], place, true);
  }

  /** So do the bytes after the last whole instruction. */
  lemma {:induction false} OddBytesStay(buf: seq<byte>, offset: int, i: nat, k: nat)
    requires k < |buf| && k / 4 * 4 + 4 > |buf|
    ensures Arm(buf, offset, i, true)[k] == buf[k]
    decreases |buf|
  {
    hide ArmMoved;
    hide ArmPlace;
    hide Arm;
    if |buf| <= 3 {
      ArmShort(buf, offset, i);
    } else {
      ArmStep(buf, offset, i);
      OddBytesStay(buf[4..], offset, i + 4, k - 4);
    }
  }

  lemma PlaceHere(offset: int, i: nat)
    requires offset >= 0 && offset + i < 0x1_0000_0000_0000_0000
    ensures ArmPlace(offset, i) == (offset + i) / 4
  {}

  // Calls of Itanium.

  /** The bundles whose slot i is a branch, by the low five bits of their first byte. */
  predicate BranchSlot(template: nat, i: nat) {
    match i
    case 0 => template == 22 || template == 23
    case 1 => template == 18 || template == 19 || template == 22 || template == 23
    case 2 => 16 <= template <= 19 || 22 <= template <= 25 || template == 28 || template == 29
    case _ => false
  }

  lemma SelectedIs(first: byte, i: nat)
    requires i <= 2
    ensures Selected(first, i) <==> BranchSlot(first as int % 32, i)
  {
    var row := first as int % 32 - 16;
    if row >= 0 {
      LowBits(BYTE_MASK[row]);
    }
  }

  lemma LowBits(mask: nat)
    ensures Bit(mask, 0) == mask % 2 && Bit(mask, 1) == mask / 2 % 2 && Bit(mask, 2) == mask / 2 / 2 % 2
  {
    assert Shr(mask, 1) == Shr(mask / 2, 0) && Shr(mask, 2) == Shr(mask / 2, 1);
    assert Shr(mask / 2, 1) == Shr(mask / 2 / 2, 0);
  }

  /** Bundle m of the buffer becomes the bundle decoded with a place that lies m on. */
  lemma {:induction false} BundleBecomes(buf: seq<byte>, place: uint32, m: nat)
    requires 16 * m + 21 < |buf| && place as int + m < 0x1_0000_0000
    ensures Itanium(buf, place, true)[16 * m..16 * m + 16] == Bundle(buf[16 * m..16 * m + 16], place as int + m, true)
    decreases m
  {
    hide Bundle;
    var rest := buf[16..];
    var r, r' := Itanium(buf, place, true), Itanium(rest, Wrap32(place as int + 1), true);
    assert r == Bundle(buf[..16], place, true) + r' && buf[0..16] == buf[..16];
    if m > 0 {
      assert Wrap32(place as int + 1) == place as int + 1;
      BundleBecomes(rest, place as int + 1, m - 1);
      assert r[16 * m..16 * m + 16] == r'[16 * (m - 1)..16 * (m - 1) + 16];
      assert buf[16 * m..16 * m + 16] == rest[16 * (m - 1)..16 * (m - 1) + 16];
    }
  }

  /** What follows the last bundle with 22 bytes from it on stays as it is. */
  lemma {:induction false} LastBytesStay(buf: seq<byte>, place: uint32, k: nat)
    requires k < |buf| && |buf| - k / 16 * 16 <= 21
    ensures Itanium(buf, place, true)[k] == buf[k]
    decreases |buf|
  {
    hide Bundle;
    if |buf| > 21 {
      LastBytesStay(buf[16..], Wrap32(place as int + 1), k - 16);
    }
  }

  lemma InstructionBits(m: nat, i: nat)
    requires i <= 2
    ensures var pos := 128 * m + 41 * i + 5;
      && (pos + 13) / 8 == 16 * m + 5 * i + 2 && (pos + 13) % 8 == i + 2
      && (pos + 37) / 8 == 16 * m + 5 * i + 5 && (pos + 37) % 8 == i + 2
  {}

  /** The address of an instruction and its opcode, as bits of the buffer and in its three bytes. */
  lemma InstructionFields(s: seq<byte>, m: nat, i: nat)
    requires i <= 2 && 16 * m + 21 < |s|
    ensures var pos, from, p := 128 * m + 41 * i + 5, 16 * m + 5 * i + 2, Pow2(i + 2);
      && GetBits(s, pos + 13, 20) == Middle(Le24(s[from..from + 3]), p)
      && GetBits(s, pos + 37, 4) == s[from + 3] / p % 16
  {
    hide Field;
    hide Le24;
    hide Le32;
    hide Middle;
    hide Pow2;
    InstructionBits(m, i);
    var from := 16 * m + 5 * i + 2;
    var w, w' := s[from..from + 4], s[from + 3..from + 7];
    WordField(w, i, 0);
    WordField(w', i, 0);
    assert w[..3] == s[from..from + 3];
  }

  lemma SlotOf(b: seq<byte>, place: int, i: nat)
    requires |b| == 16 && i <= 2
    ensures var r, from := Bundle(b, place, true), 5 * i + 2;
      r[from..from + 3] == Slot(b[0], b[from..from + 3], b[from + 3], i, place, true)
      && r[0] == b[0] && r[from + 3] == b[from + 3]
  {
    hide Slot;
    hide Bundle;
    BundleParts(b, place, true);
    HeadsAgree(Bundle(b, place, true), b);
  }

  /** The three bytes with a slot's address, before and after. */
  lemma SlotBecomes(buf: seq<byte>, place: uint32, m: nat, i: nat)
    requires i <= 2 && 16 * m + 21 < |buf| && place as int + m < 0x1_0000_0000
    ensures var r, at, from := Itanium(buf, place, true), 16 * m, 16 * m + 5 * i + 2;
      && r[from..from + 3] == Slot(buf[at], buf[from..from + 3], buf[from + 3], i, place as int + m, true)
      && r[at] == buf[at] && r[from + 3] == buf[from + 3]
  {
    hide Slot;
    hide Itanium;
    hide Bundle;
    BundleBecomes(buf, place, m);
    var r, at, k := Itanium(buf, place, true), 16 * m, 5 * i + 2;
    var b, b' := buf[at..at + 16], r[at..at + 16];
    SlotOf(b, place as int + m, i);
    SubSlice(buf, at, k, k + 3);
    SubSlice(r, at, k, k + 3);
    Within(buf, at, k + 3);
    Within(r, at, k + 3);
    Within(buf, at, 0);
    Within(r, at, 0);
  }

  lemma Within(s: seq<byte>, at: nat, k: nat)
    requires at + 16 <= |s| && k < 16
    ensures s[at..at + 16][k] == s[at + k]
  {}

  /** The 41 bits of instruction i of bundle m: when the bundle's template says branch and the opcode is that of a call,
      the 20 bits of the address have the bundle's place in the file taken from them; otherwise they stay. The bits
      around them and the opcode stay. */
  lemma InstructionTurned(buf: seq<byte>, place: uint32, m: nat, i: nat)
    requires i <= 2 && 16 * m + 21 < |buf| && place as int + m < 0x1_0000_0000
    ensures var r, pos := Itanium(buf, place, true), 128 * m + 41 * i + 5;
      && (if BranchSlot(buf[16 * m] as int % 32, i) && GetBits(buf, pos + 37, 4) == 5 then
            GetBits(r, pos + 13, 20) == (GetBits(buf, pos + 13, 20) - (place as int + m)) % 0x10_0000
          else GetBits(r, pos + 13, 20) == GetBits(buf, pos + 13, 20))
      && GetBits(r, pos + 37, 4) == GetBits(buf, pos + 37, 4) && r[16 * m] == buf[16 * m]
    ensures var r, from, p := Itanium(buf, place, true), 16 * m + 5 * i + 2, Pow2(i + 2);
      && Bottom(Le24(r[from..from + 3]), p) == Bottom(Le24(buf[from..from + 3]), p)
      && Top(Le24(r[from..from + 3]), p) == Top(Le24(buf[from..from + 3]), p)
  {
    hide Itanium;
    hide GetBits;
    hide Le24;
    hide PutLe24;
    hide Selected;
    hide BranchSlot;
    hide Pow2;
    hide Joined;
    hide Bottom;
    hide Middle;
    hide Top;
    var r, from := Itanium(buf, place, true), 16 * m + 5 * i + 2;
    InstructionFields(buf, m, i);
    InstructionFields(r, m, i);
    SlotBecomes(buf, place, m, i);
    SelectedIs(buf[16 * m], i);
    TurnedParts(buf[from..from + 3], i, place as int + m);
  }

  lemma TurnedParts(s: seq<byte>, i: nat, place: int)
    requires |s| == 3 && i <= 2
    ensures var x, y, p := Le24(s), Le24(Turned(s, i, place, true)), Pow2(i + 2);
      && Middle(y, p) == (Middle(x, p) - place) % 0x10_0000 && Bottom(y, p) == Bottom(x, p) && Top(y, p) == Top(x, p)
  {
    hide Le24;
    hide PutLe24;
    hide Pow2;
    hide Joined;
    hide Bottom;
    hide Middle;
    hide Top;
    Slots();
    var x, p := Le24(s), Pow2(i + 2);
    TurnedNumberBack(x, p, place, true);
    PutLe24Back(TurnedNumber(x, p, place, true));
    Small24(TurnedNumber(x, p, place, true));
    Apart(Bottom(x, p), p, TurnedField(Middle(x, p), place, true), Top(x, p));
  }
}
