/** The two bit readers: each delivers the bits of its bytes in order, and can take recent ones back. */
module BitReaders {
  import opened Machine
  import opened Bits
  import opened BitStrings
  import opened BitCache
  import opened ByteSources

  /** What reading bits comes to: a number, the end of the bits, or data that ends before the limit. */
  datatype ReadResult = Got(value: nat) | Eof | OutOfData

  const MAX_READ := 55

  /** The bits of data, up to a limit. */
  function Limited(data: seq<byte>, l: nat): seq<Bit> {
    DataBits(data)[..if l <= 8 * |data| then l else 8 * |data|]
  }

  lemma LimitedNext(data: seq<byte>, l: nat)
    requires data != []
    ensures l >= 8 ==> Limited(data, l) == ToBits(data[0], 8) + Limited(data[1..], l - 8)
    ensures l < 8 ==> Limited(data, l) == ToBits(data[0], 8)[..l]
  {}

  lemma LimitedNone(data: seq<byte>)
    ensures Limited(data, 0) == []
  {}

  lemma LimitedLength(data: seq<byte>, l: nat)
    ensures |Limited(data, l)| == if l <= 8 * |data| then l else 8 * |data|
  {}

  /** The bytes after the first l bits, whole bytes taken. */
  function AfterBits(data: seq<byte>, l: nat): seq<byte> {
    data[if (l + 7) / 8 <= |data| then (l + 7) / 8 else |data|..]
  }

  lemma AfterNext(data: seq<byte>, l: nat)
    requires data != [] && l > 0
    ensures AfterBits(data, l) == AfterBits(data[1..], if l >= 8 then l - 8 else 0)
  {}

  function Last(s: seq<Bit>, k: nat): seq<Bit>
    requires k <= |s|
  {
    s[|s| - k..]
  }

  /** The bits a word still holds after the byte c was shifted in. */
  function Shifted(s: seq<Bit>, c: byte): seq<Bit> {
    var t := s + ToBits(c, 8);
    if |t| <= WORD then t else Last(t, WORD)
  }

  lemma HoldsShiftedIn(v: int, s: seq<Bit>, high: int, c: byte) returns (high': int)
    requires Holds(v, s, high) && |s| <= WORD
    ensures Holds(Signed64(v * 0x100 + c), Shifted(s, c), high')
  {
    hide Holds;
    hide Signed64;
    var t := s + ToBits(c, 8);
    HoldsByte(v, s, high, c);
    high' := high;
    if |t| > WORD {
      assert t == t[..|t| - WORD] + Last(t, WORD);
      high' := HoldsSuffix(v * 0x100 + c, t[..|t| - WORD], Last(t, WORD), high);
    }
    high' := HoldsWrapped(v * 0x100 + c, Shifted(s, c), high');
  }

  lemma ShiftedLast(s: seq<Bit>, c: byte, n: nat)
    requires n <= |s| <= WORD && n <= MAX_READ
    ensures n + 8 <= |Shifted(s, c)| <= WORD && Last(Shifted(s, c), n + 8) == Last(s, n) + ToBits(c, 8)
  {}

  /** Dropping the last k of the cached bits. */
  lemma LastDropped(s: seq<Bit>, n: nat, k: nat)
    requires k <= n <= |s|
    ensures Last(s[..|s| - k], n - k) == Last(s, n)[..n - k]
  {}

  /** How many bits are cached and how many may follow, after one more byte: bits beyond the limit are dropped. The
      first number is kept in a byte. */
  function Counted(n: byte, l: int): (byte, int) {
    if l >= 8 then (Wrap8(n + 8), l - 8) else (Wrap8(n + 8 - Wrap8(8 - l)), 0)
  }

  /** The same, when there are bits to read and room for them. */
  function Pulled(n: nat, l: nat): (nat, nat) { if l >= 8 then (n + 8, l - 8) else (n + l, 0) }

  lemma CountedPulled(n: nat, l: nat)
    requires n <= MAX_READ && l > 0
    ensures Counted(n, l) == Pulled(n, l)
  {}

  /** With a limit below zero, the byte pulled in counts for nearly 256 bits. */
  lemma CountedBelow(l: int)
    requires -7 <= l < 0
    ensures Counted(0, l) == (0x100 + l, 0)
  {}

  /** Delivers the bits of its bytes up to a limit. */
  class Rar5BitReader {
    const r: ByteSource
    var v: int
    var l: nat
    var n: nat
    // The bits last shifted into v, as many as v still holds, and what v holds above them.
    ghost var pulled: seq<Bit>
    ghost var high: int

    ghost predicate Valid()
      reads this
    {
      n <= |pulled| <= WORD && Holds(v, pulled, high)
    }

    /** The bits still to be delivered. */
    ghost function Ahead(): seq<Bit>
      requires Valid()
      reads this, r
    {
      Last(pulled, n) + Limited(r.data, l)
    }

    /** The bits delivered most recently, as far as they can be taken back. */
    ghost function Behind(): seq<Bit>
      requires Valid()
      reads this
    {
      pulled[..|pulled| - n]
    }

    /** The bytes end before the limit does. */
    ghost predicate Truncated()
      reads this, r
    {
      l > 8 * |r.data|
    }

    /** The bytes after those that the limit reaches into. */
    ghost function Beyond(): seq<byte>
      reads this, r
    {
      AfterBits(r.data, l)
    }

    constructor (r: ByteSource)
      ensures Valid() && this.r == r && Ahead() == [] && Behind() == [] && !Truncated() && Beyond() == r.data
    {
      this.r := r;
      v, l, n := 0, 0, 0;
      pulled, high := [], 0;
    }

    /** When all bits up to the limit were delivered, the bytes that follow are all there are. */
    lemma Delivered()
      requires Valid() && Ahead() == [] && !Truncated()
      ensures r.data == Beyond()
    {
      LimitedLength(r.data, l);
    }

    /** Read other data; what is cached and how many bits may follow stay as they are. */
    method Reset(data: seq<byte>)
      requires Valid()
      modifies r
      ensures Valid() && r.data == data
    {
      r.data := data;
    }

    /** Nothing is ahead before the limit, and no data is missing, exactly when nothing is cached and nothing may
        follow; then the data is all there is. */
    lemma Emptied()
      requires Valid()
      ensures Ahead() == [] && !Truncated() <==> n == 0 && l == 0
      ensures Ahead() == [] && !Truncated() && Beyond() == r.data <==> n == 0 && l == 0
    {
      LimitedLength(r.data, l);
      assert |Ahead()| == n + |Limited(r.data, l)|;
    }

    /** Allow k more bits to be read, and forget what is cached. */
    method SetLimit(k: nat)
      requires Valid()
      modifies this
      ensures Valid() && Ahead() == Limited(r.data, k) && Behind() == []
      ensures Truncated() == (k > 8 * |r.data|) && Beyond() == AfterBits(r.data, k)
    {
      l := k;
      n := 0;
      pulled, high := [], v;
    }

    /** Shift the next byte into the cache, and drop the bits of it that lie beyond the limit. */
    method PullByte() returns (ok: bool)
      requires Valid() && l > 0 && n <= MAX_READ
      modifies this, r
      ensures Valid() && Ahead() == old(Ahead()) && Truncated() == old(Truncated()) && Beyond() == old(Beyond())
      ensures ok <==> old(r.data) != []
      ensures !ok ==> n == old(n) && l == old(l) && Behind() == old(Behind()) && r.data == []
      ensures ok ==>
        n > old(n) && n <= old(n) + 8 && r.data == old(r.data)[1..] && (n, l) == Pulled(old(n), old(l))
    {
      hide Holds;
      hide Signed64;
      hide Shifted;
      hide DataBits;
      hide ToBits;
      hide Limited;
      hide AfterBits;
      hide Pow2;
      ghost var cached := Last(pulled, n);
      var c := r.ReadByte();
      if c == None {
        return false;
      }
      ok := true;
      LimitedNext(old(r.data), l);
      AfterNext(old(r.data), l);
      ShiftedLast(pulled, c.value, n);
      high := HoldsShiftedIn(v, pulled, high, c.value);
      pulled := Shifted(pulled, c.value);
      v := Signed64(v * 0x100 + c.value);
      n := n + 8;
      if l < 8 {
        var bits := 8 - l;
        LastDropped(pulled, n, bits);
        LimitedNone(r.data);
        assert (cached + ToBits(c.value, 8))[..n - bits] == cached + ToBits(c.value, 8)[..l];
        ghost var kept, dropped := pulled[..|pulled| - bits], Last(pulled, bits);
        assert pulled == kept + dropped;
        HoldsShifted(v, kept, dropped, high);
        pulled := kept;
        v := v / Pow2(bits);
        n := n - bits;
        l := 0;
      } else {
        l := l - 8;
      }
    }

    /** Deliver the next k bits as a number. */
    method ReadBits(k: nat) returns (res: ReadResult)
      requires Valid() && k <= MAX_READ
      modifies this, r
      ensures Valid() && Truncated() == old(Truncated()) && Beyond() == old(Beyond())
      ensures res.Got? <==> k <= |old(Ahead())|
      ensures res.Got? ==> res.value == Num(old(Ahead())[..k]) && Ahead() == old(Ahead())[k..]
      ensures res.Got? ==> k <= |Behind()| && Last(Behind(), k) == old(Ahead())[..k]
      ensures !res.Got? ==> Ahead() == old(Ahead()) && res == if Truncated() then OutOfData else Eof
    {
      hide Holds;
      hide Limited;
      hide Pow2;
      while k > n
        invariant Valid() && Ahead() == old(Ahead()) && Truncated() == old(Truncated()) && Beyond() == old(Beyond())
        decreases |r.data|
      {
        LimitedLength(r.data, l);
        if l == 0 {
          return Eof;
        }
        var ok := PullByte();
        if !ok {
          LimitedLength(r.data, l);
          return OutOfData;
        }
      }
      ghost var a, m, b := pulled[..|pulled| - n], pulled[|pulled| - n..|pulled| - n + k], Last(pulled, n - k);
      assert pulled == a + m + b;
      HoldsField(v, a, m, b, high);
      assert Ahead()[..k] == m;
      n := n - k;
      res := Got(v / Pow2(n) % Pow2(k));
    }

    /** Take back the last k bits delivered. */
    method UnreadBits(k: nat)
      requires Valid() && k <= |Behind()|
      modifies `n
      ensures Valid() && Ahead() == Last(old(Behind()), k) + old(Ahead())
      ensures Behind() == old(Behind())[..|old(Behind())| - k] && Truncated() == old(Truncated())
        && Beyond() == old(Beyond())
    {
      hide Holds;
      hide DataBits;
      n := n + k;
      assert Last(pulled, n) == Last(old(Behind()), k) + Last(pulled, n - k);
    }

    /** The next byte after the limit, once all bits up to it were delivered. */
    method ReadByte() returns (b: Option<byte>)
      requires Valid() && Ahead() == [] && !Truncated()
      modifies this, r
      ensures Valid() && Ahead() == [] && !Truncated()
      ensures b.Some? <==> old(Beyond()) != []
      ensures b.Some? ==> b.value == old(Beyond())[0] && Beyond() == old(Beyond())[1..]
      ensures b == None ==> Beyond() == []
    {
      hide Holds;
      hide DataBits;
      LimitedLength(r.data, l);
      assert n == 0 && l == 0;
      b := r.ReadByte();
    }
  }

  /** Delivers all the bits of its bytes, and can skip to the next byte boundary. */
  class RarBitReader {
    const r: ByteSource
    var v: int
    var n: nat
    // The bits last shifted into v, as many as v still holds, and what v holds above them.
    ghost var pulled: seq<Bit>
    ghost var high: int

    ghost predicate Valid()
      reads this
    {
      n <= |pulled| <= WORD && Holds(v, pulled, high)
    }

    ghost function Ahead(): seq<Bit>
      requires Valid()
      reads this, r
    {
      Last(pulled, n) + DataBits(r.data)
    }

    ghost function Behind(): seq<Bit>
      requires Valid()
      reads this
    {
      pulled[..|pulled| - n]
    }

    constructor (r: ByteSource)
      ensures Valid() && this.r == r && Ahead() == DataBits(r.data) && Behind() == []
    {
      this.r := r;
      v, n := 0, 0;
      pulled, high := [], 0;
    }

    /** Shift the next byte into the cache. */
    method PullByte() returns (ok: bool)
      requires Valid() && n <= MAX_READ
      modifies this, r
      ensures Valid() && Ahead() == old(Ahead())
      ensures ok <==> old(r.data) != []
      ensures if ok then n == old(n) + 8 && r.data == old(r.data)[1..] else n == old(n) && r.data == []
    {
      hide Holds;
      hide ToBits;
      hide Signed64;
      hide Shifted;
      ghost var data, cached := r.data, Last(pulled, n);
      var c := r.ReadByte();
      if c == None {
        return false;
      }
      assert DataBits(data) == ToBits(c.value, 8) + DataBits(r.data);
      ShiftedLast(pulled, c.value, n);
      high := HoldsShiftedIn(v, pulled, high, c.value);
      pulled := Shifted(pulled, c.value);
      v := Signed64(v * 0x100 + c.value);
      n := n + 8;
      assert Ahead() == cached + ToBits(c.value, 8) + DataBits(r.data);
      ok := true;
    }

    /** Deliver the next k bits as a number; None at the end of the data, with nothing lost. */
    method ReadBits(k: nat) returns (res: Option<nat>)
      requires Valid() && k <= MAX_READ
      modifies this, r
      ensures Valid()
      ensures res.Some? <==> k <= |old(Ahead())|
      ensures res.Some? ==> res.value == Num(old(Ahead())[..k]) && Ahead() == old(Ahead())[k..]
      ensures res.Some? ==> k <= |Behind()| && Last(Behind(), k) == old(Ahead())[..k]
      ensures res == None ==> Ahead() == old(Ahead())
    {
      hide Holds;
      hide Pow2;
      hide Num;
      while k > n
        invariant Valid() && Ahead() == old(Ahead())
        decreases |r.data|
      {
        var ok := PullByte();
        if !ok {
          return None;
        }
      }
      ghost var a, m, b := pulled[..|pulled| - n], pulled[|pulled| - n..|pulled| - n + k], Last(pulled, n - k);
      assert pulled == a + m + b;
      HoldsField(v, a, m, b, high);
      assert Ahead()[..k] == m;
      n := n - k;
      res := Some(v / Pow2(n) % Pow2(k));
    }

    method UnreadBits(k: nat)
      requires Valid() && k <= |Behind()|
      modifies `n
      ensures Valid() && Ahead() == Last(old(Behind()), k) + old(Ahead())
      ensures Behind() == old(Behind())[..|old(Behind())| - k]
    {
      n := n + k;
      assert Last(pulled, n) == Last(old(Behind()), k) + Last(pulled, n - k);
    }

    /** Skip to the next byte boundary: at most seven bits, after which whole bytes remain. */
    method AlignByte()
      requires Valid()
      modifies `n
      ensures Valid() && |Ahead()| % 8 == 0
      ensures |old(Ahead())| - 8 < |Ahead()| <= |old(Ahead())| && Ahead() == Last(old(Ahead()), |Ahead()|)
    {
      hide Holds;
      hide DataBits;
      ghost var cached := Last(pulled, n);
      ghost var drop := n % 8;
      n := n - n % 8;
      assert Last(pulled, n) == cached[drop..];
      assert Ahead() == old(Ahead())[drop..];
    }

    /** The next eight bits as a byte. */
    method ReadByte() returns (b: Option<byte>)
      requires Valid()
      modifies this, r
      ensures Valid()
      ensures b.Some? <==> 8 <= |old(Ahead())|
      ensures b.Some? ==> ToBits(b.value, 8) == old(Ahead())[..8] && Ahead() == old(Ahead())[8..]
      ensures b == None ==> Ahead() == old(Ahead())
    {
      if n == 0 {
        // The byte bypasses the cache, so what was read before cannot be taken back any more.
        pulled, high := [], v;
        b := r.ReadByte();
      } else {
        var x := ReadBits(8);
        if x == None {
          return None;
        }
        Pow2Values();
        ToBitsNum(old(Ahead())[..8]);
        b := Some(x.value);
      }
    }
  }

  /** Either reader, for what reads symbols from both. */
  datatype BitReader = Rar5(five: Rar5BitReader) | Rar(three: RarBitReader) {
    ghost function Parts(): set<object> {
      match this
      case Rar5(b) => {b, b.r}
      case Rar(b) => {b, b.r}
    }

    ghost predicate Valid()
      reads Parts()
    {
      match this
      case Rar5(b) => b.Valid()
      case Rar(b) => b.Valid()
    }

    ghost function Ahead(): seq<Bit>
      requires Valid()
      reads Parts()
    {
      match this
      case Rar5(b) => b.Ahead()
      case Rar(b) => b.Ahead()
    }

    ghost function Behind(): seq<Bit>
      requires Valid()
      reads Parts()
    {
      match this
      case Rar5(b) => b.Behind()
      case Rar(b) => b.Behind()
    }

    /** Only a reader with a limit can miss bits. */
    ghost predicate Truncated()
      reads Parts()
    {
      Rar5? && five.Truncated()
    }

    ghost function Beyond(): seq<byte>
      reads Parts()
    {
      match this
      case Rar5(b) => b.Beyond()
      case Rar(b) => []
    }

    method ReadBits(k: nat) returns (res: ReadResult)
      requires Valid() && k <= MAX_READ
      modifies Parts()
      ensures Valid() && Truncated() == old(Truncated()) && Beyond() == old(Beyond())
      ensures res.Got? <==> k <= |old(Ahead())|
      ensures res.Got? ==> res.value == Num(old(Ahead())[..k]) && Ahead() == old(Ahead())[k..]
      ensures res.Got? ==> k <= |Behind()| && Last(Behind(), k) == old(Ahead())[..k]
      ensures !res.Got? ==> Ahead() == old(Ahead()) && res == if Truncated() then OutOfData else Eof
    {
      hide Num;
      hide Rar5BitReader.Valid;
      hide Rar5BitReader.Ahead;
      hide Rar5BitReader.Behind;
      hide Rar5BitReader.Truncated;
      hide Rar5BitReader.Beyond;
      hide RarBitReader.Valid;
      hide RarBitReader.Ahead;
      hide RarBitReader.Behind;
      match this {
        case Rar5(b) =>
          res := b.ReadBits(k);
        case Rar(b) =>
          var n := b.ReadBits(k);
          res := if n == None then Eof else Got(n.value);
      }
    }

    method UnreadBits(k: nat)
      requires Valid() && k <= |Behind()|
      modifies Parts()
      ensures Valid() && Ahead() == Last(old(Behind()), k) + old(Ahead())
      ensures Behind() == old(Behind())[..|old(Behind())| - k] && Truncated() == old(Truncated())
        && Beyond() == old(Beyond())
    {
      hide Rar5BitReader.Valid;
      hide Rar5BitReader.Ahead;
      hide Rar5BitReader.Behind;
      hide RarBitReader.Valid;
      hide RarBitReader.Ahead;
      hide RarBitReader.Behind;
      match this {
        case Rar5(b) =>
          b.UnreadBits(k);
        case Rar(b) =>
          b.UnreadBits(k);
      }
    }
  }
}
