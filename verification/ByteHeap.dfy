/** Bytes packed six to a cell: one in sym, one in freq and four in the pointer, lowest first. */
module ByteHeap {
  import opened Machine
  import opened FreeLists

  /** The 32-bit number with these four bytes. */
  function Join(b0: byte, b1: byte, b2: byte, b3: byte): uint32 {
    b0 + 0x100 * b1 + 0x1_0000 * b2 + 0x100_0000 * b3
  }

  /** Byte i of a 32-bit number. */
  function ByteOf(u: uint32, i: nat): byte
    requires i < 4
  {
    if i == 0 then u % 0x100
    else if i == 1 then u / 0x100 % 0x100
    else if i == 2 then u / 0x100 / 0x100 % 0x100
    else u / 0x100 / 0x100 / 0x100
  }

  lemma JoinBytes(u: uint32)
    ensures Join(ByteOf(u, 0), ByteOf(u, 1), ByteOf(u, 2), ByteOf(u, 3)) == u
  {
    var q := u / 0x100;
    assert q == 0x100 * (q / 0x100) + q % 0x100;
  }

  lemma BytesOfJoin(b0: byte, b1: byte, b2: byte, b3: byte)
    ensures var u := Join(b0, b1, b2, b3);
      ByteOf(u, 0) == b0 && ByteOf(u, 1) == b1 && ByteOf(u, 2) == b2 && ByteOf(u, 3) == b3
  {
    var u := Join(b0, b1, b2, b3);
    assert u / 0x100 == b1 + 0x100 * b2 + 0x1_0000 * b3;
    assert u / 0x100 / 0x100 == b2 + 0x100 * b3;
  }

  /** Clear byte i of u and put c there. */
  function WithByte(u: uint32, i: nat, c: byte): uint32
    requires i < 4
  {
    JoinBytes(u);
    if i == 0 then u - ByteOf(u, 0) + c
    else if i == 1 then u - 0x100 * ByteOf(u, 1) + 0x100 * c
    else if i == 2 then u - 0x1_0000 * ByteOf(u, 2) + 0x1_0000 * c
    else u - 0x100_0000 * ByteOf(u, 3) + 0x100_0000 * c
  }

  lemma WithByteAt(u: uint32, i: nat, c: byte, k: nat)
    requires i < 4 && k < 4
    ensures ByteOf(WithByte(u, i, c), k) == if k == i then c else ByteOf(u, k)
  {
    hide ByteOf;
    var b0, b1, b2, b3 := ByteOf(u, 0), ByteOf(u, 1), ByteOf(u, 2), ByteOf(u, 3);
    JoinBytes(u);
    if i == 0 { BytesOfJoin(c, b1, b2, b3); }
    else if i == 1 { BytesOfJoin(b0, c, b2, b3); }
    else if i == 2 { BytesOfJoin(b0, b1, c, b3); }
    else { BytesOfJoin(b0, b1, b2, c); }
  }

  lemma SignedKeepsBits(u: uint32)
    ensures Wrap32(Signed32(u)) == u
  {}

  function CellByte(s: State, i: nat): byte
    requires i < 6
  {
    if i == 0 then s.sym else if i == 1 then s.freq else ByteOf(Wrap32(s.succ), i - 2)
  }

  function WithCellByte(s: State, i: nat, c: byte): State
    requires i < 6
  {
    if i == 0 then State(c, s.freq, s.succ)
    else if i == 1 then State(s.sym, c, s.succ)
    else State(s.sym, s.freq, Signed32(WithByte(Wrap32(s.succ), i - 2, c)))
  }

  /** Byte k of memory. */
  function ByteAt(mem: Memory, k: nat): byte
    requires k / 6 < |mem|
  {
    CellByte(mem[k / 6], k % 6)
  }

  /** Storing a byte changes that byte and no other. */
  lemma StoredByte(mem: Memory, lo: nat, c: byte, k: nat)
    requires lo / 6 < |mem| && k / 6 < |mem|
    ensures ByteAt(mem[lo / 6 := WithCellByte(mem[lo / 6], lo % 6, c)], k) == if k == lo then c else ByteAt(mem, k)
  {
    var s := mem[lo / 6];
    if k / 6 == lo / 6 && lo % 6 >= 2 {
      SignedKeepsBits(WithByte(Wrap32(s.succ), lo % 6 - 2, c));
      if k % 6 >= 2 { WithByteAt(Wrap32(s.succ), lo % 6 - 2, c, k % 6 - 2); }
    }
  }
}
