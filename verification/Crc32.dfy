/** The STM32 hardware CRC-32: the generator polynomial of section 3.2.9 of
    IEEE 802.3, unreflected, all ones at the start and no final exclusive or.
    The byte-at-a-time loop is proved against the bit-serial register. */
module Crc32 {

  type octet = bv8
  type word = bv32

  const POLY: word := 0x04C1_1DB7
  const INIT: word := 0xFFFF_FFFF
  const MSB: word := 0x8000_0000

  // ----- register arithmetic

  function Xor(x: word, y: word): word {
    x ^ y
  }

  function Up(x: word): word {
    x << 1
  }

  function Down(x: word): word {
    x >> 1
  }

  predicate High(x: word) {
    x & MSB != 0
  }

  predicate Odd(x: word) {
    x & 1 != 0
  }

  function Top(b: bool): word {
    if b then MSB else 0
  }

  lemma XorCancels(x: word, y: word)
    ensures Xor(x, Xor(x, y)) == y && Xor(Xor(y, x), x) == y && Xor(x, 0) == x
  {}

  lemma XorZero(x: word)
    ensures Xor(0, x) == x
  {}

  lemma XorAssoc(x: word, y: word, z: word)
    ensures Xor(Xor(x, y), z) == Xor(x, Xor(y, z))
  {}

  lemma DownXor(x: word, y: word)
    ensures Down(Xor(x, y)) == Xor(Down(x), Down(y))
  {}

  lemma UpXor(x: word, y: word)
    ensures Up(Xor(x, y)) == Xor(Up(x), Up(y)) && High(Xor(x, y)) == (High(x) != High(y))
  {}

  lemma UpDown(x: word)
    requires !Odd(x)
    ensures Up(Down(x)) == x && !High(Down(x))
  {}

  lemma TopFacts(b: bool)
    ensures Up(Top(b)) == 0 && High(Top(b)) == b
  {}

  // ----- one bit

  /** One step of the register with nothing coming in. */
  function Turn(x: word): word {
    if High(x) then Xor(Up(x), POLY) else Up(x)
  }

  /** What the register held before such a step: the generator is odd, so the
      lowest bit tells whether it was added. */
  function Unturn(y: word): word {
    if Odd(y) then Xor(Down(Xor(y, POLY)), MSB) else Down(y)
  }

  lemma XorSwap(x: word, y: word)
    ensures Xor(x, y) == Xor(y, x)
  {}

  lemma UpParity(x: word)
    ensures !Odd(Up(x)) && Odd(Xor(Up(x), POLY))
  {}

  lemma DownUp(x: word)
    ensures High(x) ==> Xor(Down(Up(x)), MSB) == x
    ensures !High(x) ==> Down(Up(x)) == x
  {}

  lemma OddXor(y: word)
    requires Odd(y)
    ensures !Odd(Xor(y, POLY))
  {}

  lemma TurnBijective(x: word)
    ensures Unturn(Turn(x)) == x && Turn(Unturn(x)) == x
  {
    hide Xor, Up, Down, High, Odd;
    UpParity(x);
    DownUp(x);
    XorCancels(POLY, Up(x));
    if Odd(x) {
      var y := Xor(x, POLY);
      OddXor(x);
      UpDown(y);
      UpXor(Down(y), MSB);
      TopFacts(true);
      XorCancels(y, 0);
      XorCancels(POLY, x);
    } else {
      UpDown(x);
    }
  }

  /** What the turns multiply by: x, with x^32 = x^26 + x^23 + x^22 + x^16 + x^12 +
      x^11 + x^10 + x^8 + x^7 + x^5 + x^4 + x^2 + x + 1, the generator of section
      3.2.9 of IEEE 802.3.  With linearity this fixes every turn. */
  lemma Generator()
    ensures Turn(1 << 31) ==
      (1 << 26) ^ (1 << 23) ^ (1 << 22) ^ (1 << 16) ^ (1 << 12) ^ (1 << 11) ^ (1 << 10) ^ (1 << 8) ^ (1 << 7) ^
      (1 << 5) ^ (1 << 4) ^ (1 << 2) ^ (1 << 1) ^ 1
  {}

  lemma TimesX(x: word)
    requires x < 1 << 31
    ensures Turn(x) == x << 1
  {}

  lemma TurnLinear(x: word, y: word)
    ensures Turn(Xor(x, y)) == Xor(Turn(x), Turn(y))
  {
    hide Xor, Up, High;
    UpXor(x, y);
    Rearrange(Up(x), Up(y), POLY);
  }

  lemma Rearrange(a: word, b: word, p: word)
    ensures Xor(Xor(a, b), p) == Xor(Xor(a, p), b) == Xor(a, Xor(b, p))
    ensures Xor(Xor(a, p), Xor(b, p)) == Xor(a, b)
  {
    hide Xor;
    XorAssoc(a, b, p);
    XorAssoc(a, p, b);
    XorSwap(b, p);
    XorAssoc(a, p, Xor(b, p));
    XorCancels(p, b);
  }

  function Turns(x: word, n: nat): word
    decreases n
  {
    if n == 0 then x else Turns(Turn(x), n - 1)
  }

  lemma {:induction false} TurnsInjective(x: word, y: word, n: nat)
    requires Turns(x, n) == Turns(y, n)
    ensures x == y
    decreases n
  {
    hide Turn, Unturn;
    if n > 0 {
      TurnsInjective(Turn(x), Turn(y), n - 1);
      TurnBijective(x);
      TurnBijective(y);
    }
  }

  // ----- bit streams

  /** The register after a stream of bits. */
  function Register(c: word, e: seq<bool>): word
    decreases |e|
  {
    if |e| == 0 then c else Register(Turn(Xor(c, Top(e[0]))), e[1..])
  }

  lemma {:induction false} RegisterSplit(c: word, e: seq<bool>, f: seq<bool>)
    ensures Register(c, e + f) == Register(Register(c, e), f)
    decreases |e|
  {
    hide Turn, Xor, Top;
    if |e| == 0 {
      assert e + f == f;
    } else {
      RegisterSplit(Turn(Xor(c, Top(e[0]))), e[1..], f);
      assert (e + f)[1..] == e[1..] + f;
    }
  }

  /** A common tail cannot hide a difference. */
  lemma {:induction false} RegisterInjective(c: word, d: word, e: seq<bool>)
    requires Register(c, e) == Register(d, e)
    ensures c == d
    decreases |e|
  {
    hide Turn, Unturn, Xor, Top;
    if |e| > 0 {
      var t := Top(e[0]);
      var x, y := Xor(c, t), Xor(d, t);
      RegisterInjective(Turn(x), Turn(y), e[1..]);
      TurnBijective(x);
      TurnBijective(y);
      XorCancels(t, c);
      XorCancels(t, d);
    }
  }

  // ----- words

  function Shifted(x: word, n: nat): word
    decreases n
  {
    if n == 0 then x else Shifted(Up(x), n - 1)
  }

  lemma {:induction false} ShiftedSum(x: word, m: nat, n: nat)
    ensures Shifted(x, m + n) == Shifted(Shifted(x, m), n)
    decreases m
  {
    hide Up;
    if m > 0 {
      ShiftedSum(Up(x), m - 1, n);
    }
  }

  lemma {:induction false} ShiftedZero(n: nat)
    ensures Shifted(0, n) == 0
  {
    if n > 0 {
      ShiftedZero(n - 1);
      assert Up(0) == 0;
    }
  }

  lemma EightUps(x: word)
    ensures Shifted(x, 8) == x << 8
  {
    hide Shifted, Up;
    FourUps(x);
    FourUps(x << 4);
    ShiftedSum(x, 4, 4);
  }

  lemma FourUps(x: word)
    ensures Shifted(x, 4) == x << 4
  {
    assert Shifted(x, 4) == Up(Up(Up(Up(x)))) by { hide Up; }
  }

  /** If shifting by less than a whole word clears it, its lowest bit was clear. */
  lemma LowBitClear(x: word, n: nat)
    requires n <= 31 && Shifted(x, n) == 0
    ensures !Odd(x)
  {
    hide Shifted, Up, Odd;
    ShiftedSum(x, n, 31 - n);
    ShiftedZero(31 - n);
    ThirtyOneUps(x);
    LastBit(x);
  }

  lemma LastBit(x: word)
    requires x << 31 == 0
    ensures !Odd(x)
  {}

  lemma ThirtyOneUps(x: word)
    ensures Shifted(x, 31) == x << 31
  {
    var y := x << 24;
    assert Shifted(y << 4, 3) == Up(Up(Up(y << 4)));
    hide Shifted;
    ShiftedSum(x, 24, 7);
    ThreeBytes(x);
    ShiftedSum(y, 4, 3);
    FourUps(y);
    assert Up(Up(Up(y << 4))) == x << 31;
  }

  lemma ThreeBytes(y: word)
    ensures Shifted(y, 24) == y << 24
  {
    hide Shifted;
    ShiftedSum(y, 8, 16);
    ShiftedSum(y << 8, 8, 8);
    EightUps(y);
    EightUps(y << 8);
    EightUps(y << 8 << 8);
    assert y << 8 << 8 << 8 == y << 24;
  }

  /** Up to 32 bits, the first one on top. */
  function Pack(e: seq<bool>): word {
    if |e| == 0 then 0 else Xor(Top(e[0]), Down(Pack(e[1..])))
  }

  /** Packing loses nothing: the first bit and the rest can be read back. */
  lemma {:induction false} PackFirst(e: seq<bool>)
    requires |e| <= 32
    ensures |e| > 0 ==> High(Pack(e)) == e[0] && Up(Pack(e)) == Pack(e[1..]) && !Odd(Pack(e[1..]))
    ensures Shifted(Pack(e), |e|) == 0
  {
    hide Up, High, Down, Xor, Odd, Top;
    if |e| > 0 {
      PackFirst(e[1..]);
      var t, p := Top(e[0]), Pack(e[1..]);
      LowBitClear(p, |e| - 1);
      UpXor(t, Down(p));
      UpDown(p);
      TopFacts(e[0]);
      XorZero(p);
    }
  }

  lemma {:induction false} PackInjective(e: seq<bool>, f: seq<bool>)
    requires |e| == |f| <= 32 && Pack(e) == Pack(f)
    ensures e == f
    decreases |e|
  {
    hide Pack;
    if |e| > 0 {
      PackFirst(e);
      PackFirst(f);
      PackInjective(e[1..], f[1..]);
      assert e == [e[0]] + e[1..] && f == [f[0]] + f[1..];
    }
  }

  lemma AddTop(c: word, t: word, p: word)
    requires !Odd(p)
    ensures Turn(Xor(c, Xor(t, Down(p)))) == Xor(Turn(Xor(c, t)), p)
  {
    hide Xor, Down, Odd, Up, High;
    XorAssoc(c, t, Down(p));
    TurnLinear(Xor(c, t), Down(p));
    UpDown(p);
  }

  /** Up to 32 bits can be added all at once and the register turned after. */
  lemma {:induction false} RegisterPacked(c: word, e: seq<bool>)
    requires |e| <= 32
    ensures Register(c, e) == Turns(Xor(c, Pack(e)), |e|)
    decreases |e|
  {
    hide Turn, Xor, Top, Down, Odd;
    if |e| == 0 {
      XorCancels(c, 0);
    } else {
      RegisterPacked(Turn(Xor(c, Top(e[0]))), e[1..]);
      PackFirst(e);
      AddTop(c, Top(e[0]), Pack(e[1..]));
    }
  }

  // ----- bytes

  function BitAt(b: octet, i: nat): bool
    requires i < 8
  {
    (b << i) & 0x80 != 0
  }

  /** The bits of a byte, most significant first. */
  function ByteBits(b: octet): (e: seq<bool>)
    ensures |e| == 8
  {
    [BitAt(b, 0), BitAt(b, 1), BitAt(b, 2), BitAt(b, 3), BitAt(b, 4), BitAt(b, 5), BitAt(b, 6), BitAt(b, 7)]
  }

  function Bits(m: seq<octet>): (e: seq<bool>)
    ensures |e| == 8 * |m|
  {
    if |m| == 0 then [] else Bits(m[..|m| - 1]) + ByteBits(m[|m| - 1])
  }

  /** The checksum: the bits of the message through the register. */
  function Crc(m: seq<octet>): word {
    Register(INIT, Bits(m))
  }

  lemma ByteBitsInjective(b: octet, d: octet)
    requires ByteBits(b) == ByteBits(d)
    ensures b == d
  {
    var e, f := ByteBits(b), ByteBits(d);
    assert e[0] == f[0] && e[1] == f[1] && e[2] == f[2] && e[3] == f[3];
    assert e[4] == f[4] && e[5] == f[5] && e[6] == f[6] && e[7] == f[7];
  }

  lemma {:induction false} BitsSplit(x: seq<octet>, y: seq<octet>)
    ensures Bits(x + y) == Bits(x) + Bits(y)
    decreases |y|
  {
    hide ByteBits;
    if |y| == 0 {
      assert x + y == x;
    } else {
      var n := |y| - 1;
      BitsSplit(x, y[..n]);
      assert (x + y)[..|x + y| - 1] == x + y[..n];
      assert Bits(x) + Bits(y[..n]) + ByteBits(y[n]) == Bits(x) + (Bits(y[..n]) + ByteBits(y[n]));
    }
  }

  lemma {:induction false} BitsInjective(x: seq<octet>, y: seq<octet>)
    requires |x| == |y| && Bits(x) == Bits(y)
    ensures x == y
    decreases |x|
  {
    hide ByteBits;
    if |x| > 0 {
      var n := |x| - 1;
      var e, f := Bits(x[..n]), Bits(y[..n]);
      assert e == Bits(x)[..8 * n] && f == Bits(y)[..8 * n];
      assert ByteBits(x[n]) == Bits(x)[8 * n..] && ByteBits(y[n]) == Bits(y)[8 * n..];
      BitsInjective(x[..n], y[..n]);
      ByteBitsInjective(x[n], y[n]);
    }
  }

  /** The byte, moved to the top of a word, is its bits packed. */
  lemma PackedByte(b: octet)
    ensures Pack(ByteBits(b)) == (b as word) << 24
  {
    var e := ByteBits(b);
    hide Pack, ByteBits, Top, Down, Xor;
    PackTail(e, 7);
    PackTail(e, 6);
    PackTail(e, 5);
    PackTail(e, 4);
    PackTail(e, 3);
    PackTail(e, 2);
    PackTail(e, 1);
    PackTail(e, 0);
    PackEnd(e);
    assert e[0..] == e;
    ByteWord(b);
  }

  lemma PackTail(e: seq<bool>, i: nat)
    requires i < |e|
    ensures Pack(e[i..]) == Xor(Top(e[i]), Down(Pack(e[i + 1..])))
  {}

  lemma PackEnd(e: seq<bool>)
    requires |e| == 8
    ensures Pack(e[8..]) == 0
  {}

  /** A bit under what follows it. */
  function Over(t: bool, p: word): word {
    Xor(Top(t), Down(p))
  }

  lemma ByteWord(b: octet)
    ensures var e := ByteBits(b);
      Over(e[0], Over(e[1], Over(e[2], Over(e[3], Over(e[4], Over(e[5], Over(e[6], Over(e[7], 0)))))))) ==
      (b as word) << 24
  {}

  // ----- the loop

  method Stm32Crc32(data: seq<octet>) returns (crc: word)
    ensures crc == Crc(data)
  {
    hide Xor, High, Up, ByteBits, Pack;
    crc := INIT;
    for i := 0 to |data|
      invariant crc == Crc(data[..i])
    {
      ghost var c := crc;
      crc := Xor(crc, (data[i] as word) << 24);
      ghost var start := crc;
      for k := 0 to 8
        invariant Turns(start, 8) == Turns(crc, 8 - k)
      {
        if High(crc) {
          crc := Xor(Up(crc), POLY);
        } else {
          crc := Up(crc);
        }
      }
      var e := ByteBits(data[i]);
      RegisterPacked(c, e);
      PackedByte(data[i]);
      assert data[..i + 1][..i] == data[..i];
      RegisterSplit(INIT, Bits(data[..i]), e);
    }
    assert data[..|data|] == data;
  }

  // ----- what it detects

  /** Two bit streams that differ only within 32 consecutive bits always leave
      different registers, wherever the burst lies and however long they are. */
  lemma BurstDetected(c: word, front: seq<bool>, e: seq<bool>, f: seq<bool>, back: seq<bool>)
    requires |e| == |f| <= 32 && e != f
    ensures Register(c, front + e + back) != Register(c, front + f + back)
  {
    hide Xor, Pack, Register, Turns;
    if Register(c, front + e + back) == Register(c, front + f + back) {
      RegisterSplit(c, front + e, back);
      RegisterSplit(c, front + f, back);
      RegisterInjective(Register(c, front + e), Register(c, front + f), back);
      RegisterSplit(c, front, e);
      RegisterSplit(c, front, f);
      var d := Register(c, front);
      RegisterPacked(d, e);
      RegisterPacked(d, f);
      TurnsInjective(Xor(d, Pack(e)), Xor(d, Pack(f)), |e|);
      XorCancels(d, Pack(e));
      XorCancels(d, Pack(f));
      PackInjective(e, f);
      assert false;
    }
  }

  /** Two messages of equal length that differ only within bits [i, i + 32). */
  ghost predicate DifferWithin(x: seq<octet>, y: seq<octet>, i: nat) {
    |x| == |y| && x != y && i <= 8 * |x| &&
    forall k :: 0 <= k < 8 * |x| && !(i <= k < i + 32) ==> Bits(x)[k] == Bits(y)[k]
  }

  lemma MessageBurstDetected(x: seq<octet>, y: seq<octet>, i: nat)
    requires DifferWithin(x, y, i)
    ensures Crc(x) != Crc(y)
  {
    var u, v := Bits(x), Bits(y);
    hide Bits, Register;
    var j := if i + 32 <= |u| then i + 32 else |u|;
    assert u == u[..i] + u[i..j] + u[j..] && v == u[..i] + v[i..j] + u[j..];
    if u[i..j] == v[i..j] {
      BitsInjective(x, y);
      assert false;
    }
    BurstDetected(INIT, u[..i], u[i..j], v[i..j], u[j..]);
  }

  /** In particular, any change confined to four consecutive bytes is detected. */
  lemma FourBytesDetected(front: seq<octet>, x: seq<octet>, y: seq<octet>, back: seq<octet>)
    requires |x| == |y| <= 4 && x != y
    ensures Crc(front + x + back) != Crc(front + y + back)
  {
    BitsSplit(front, x);
    BitsSplit(front, y);
    BitsSplit(front + x, back);
    BitsSplit(front + y, back);
    if Bits(x) == Bits(y) {
      BitsInjective(x, y);
      assert false;
    }
    BurstDetected(INIT, Bits(front), Bits(x), Bits(y), Bits(back));
  }

  // ----- a word at a time

  function Dropped(x: word, n: nat): word
    decreases n
  {
    if n == 0 then x else Down(Dropped(x, n - 1))
  }

  lemma DroppedByte(x: word)
    ensures Dropped(x, 8) == x >> 8
  {
    assert Dropped(x, 4) == FourDowns(x) && Dropped(x, 8) == FourDowns(Dropped(x, 4)) by { hide Down; }
    hide Dropped, Down;
    FourDownsIs(x);
    FourDownsIs(x >> 4);
  }

  function FourDowns(x: word): word {
    Down(Down(Down(Down(x))))
  }

  lemma FourDownsIs(x: word)
    ensures FourDowns(x) == x >> 4
  {}

  lemma {:induction false} PackSplit(e: seq<bool>, f: seq<bool>)
    ensures Pack(e + f) == Xor(Pack(e), Dropped(Pack(f), |e|))
    decreases |e|
  {
    hide Xor, Down, Top;
    if |e| == 0 {
      assert e + f == f;
      XorZero(Pack(f));
    } else {
      PackSplit(e[1..], f);
      assert (e + f)[1..] == e[1..] + f;
      var p, q := Pack(e[1..]), Dropped(Pack(f), |e| - 1);
      DownXor(p, q);
      XorAssoc(Top(e[0]), Down(p), Down(q));
    }
  }

  /** Four bytes as a word, first byte on top. */
  function WordOf(x: seq<octet>): word
    requires |x| == 4
  {
    ((x[0] as word) << 24) | ((x[1] as word) << 16) | ((x[2] as word) << 8) | (x[3] as word)
  }

  lemma OneByte(b: octet)
    ensures Bits([b]) == ByteBits(b)
  {}

  lemma BitsOfFour(x: seq<octet>)
    requires |x| == 4
    ensures Bits(x) == ByteBits(x[0]) + (ByteBits(x[1]) + (ByteBits(x[2]) + ByteBits(x[3])))
  {
    hide ByteBits, Bits;
    assert x == [x[0]] + ([x[1]] + ([x[2]] + [x[3]]));
    BitsSplit([x[0]], [x[1]] + ([x[2]] + [x[3]]));
    BitsSplit([x[1]], [x[2]] + [x[3]]);
    BitsSplit([x[2]], [x[3]]);
    OneByte(x[0]);
    OneByte(x[1]);
    OneByte(x[2]);
    OneByte(x[3]);
  }

  lemma PackedWord(x: seq<octet>)
    requires |x| == 4
    ensures Pack(Bits(x)) == WordOf(x)
  {
    var e0, e1, e2, e3 := ByteBits(x[0]), ByteBits(x[1]), ByteBits(x[2]), ByteBits(x[3]);
    hide ByteBits, Bits, Xor, Dropped, Pack;
    BitsOfFour(x);
    PackSplit(e0, e1 + (e2 + e3));
    PackSplit(e1, e2 + e3);
    PackSplit(e2, e3);
    PackedByte(x[0]);
    PackedByte(x[1]);
    PackedByte(x[2]);
    PackedByte(x[3]);
    DroppedByte(Pack(e1 + (e2 + e3)));
    DroppedByte(Pack(e2 + e3));
    DroppedByte(Pack(e3));
    Assembled(x[0], x[1], x[2], x[3]);
  }

  lemma Assembled(a: octet, b: octet, c: octet, d: octet)
    ensures Xor((a as word) << 24, Xor((b as word) << 24, Xor((c as word) << 24, (d as word) << 24 >> 8) >> 8) >> 8)
         == ((a as word) << 24) | ((b as word) << 16) | ((c as word) << 8) | (d as word)
  {}

  /** Four byte steps are one word added whole, then 32 turns. */
  lemma WordAtOnce(c: word, x: seq<octet>)
    requires |x| == 4
    ensures Register(c, Bits(x)) == Turns(Xor(c, WordOf(x)), 32)
  {
    RegisterPacked(c, Bits(x));
    PackedWord(x);
  }

  lemma FourTurns(x: word, a: word, b: word, c: word, y: word, n: nat)
    requires Turn(x) == a && Turn(a) == b && Turn(b) == c && Turn(c) == y
    ensures Turns(x, n + 4) == Turns(y, n)
  {
    hide Turn;
    assert Turns(x, n + 4) == Turns(a, n + 3) == Turns(b, n + 2) == Turns(c, n + 1);
  }

  lemma NoTurns(x: word)
    ensures Turns(x, 0) == x
  {}

  lemma ZerosFirst()
    ensures Turns(0xffffffff, 32) == Turns(0x4e08bfb4, 24)
  {
    hide Turns;
    FourTurns(0xffffffff, 0xfb3ee249, 0xf2bcd925, 0xe1b8affd, 0xc7b0424d, 28);
    FourTurns(0xc7b0424d, 0x8ba1992d, 0x13822fed, 0x27045fda, 0x4e08bfb4, 24);
  }

  lemma ZerosSecond()
    ensures Turns(0x4e08bfb4, 24) == Turns(0xb7647d, 16)
  {
    hide Turns;
    FourTurns(0x4e08bfb4, 0x9c117f68, 0x3ce3e367, 0x79c7c6ce, 0xf38f8d9c, 20);
    FourTurns(0xf38f8d9c, 0xe3de068f, 0xc37d10a9, 0x823b3ce5, 0xb7647d, 16);
  }

  lemma ZerosThird()
    ensures Turns(0xb7647d, 16) == Turns(0xb7647d00, 8)
  {
    hide Turns;
    FourTurns(0xb7647d, 0x16ec8fa, 0x2dd91f4, 0x5bb23e8, 0xb7647d0, 12);
    FourTurns(0xb7647d0, 0x16ec8fa0, 0x2dd91f40, 0x5bb23e80, 0xb7647d00, 8);
  }

  lemma ZerosFourth()
    ensures Turns(0xb7647d00, 8) == Turns(0xc704dd7b, 0)
  {
    hide Turns;
    FourTurns(0xb7647d00, 0x6a09e7b7, 0xd413cf6e, 0xace6836b, 0x5d0c1b61, 4);
    FourTurns(0x5d0c1b61, 0xba1836c2, 0x70f17033, 0xe1e2e066, 0xc704dd7b, 0);
  }

  /** The hardware's checksum of one word of zeros. */
  lemma ChecksumOfZeros()
    ensures Crc([0, 0, 0, 0]) == 0xc704dd7b
  {
    WordAtOnce(INIT, [0, 0, 0, 0]);
    hide Turns, Register, Bits, Turn;
    assert Xor(INIT, WordOf([0, 0, 0, 0])) == 0xffffffff;
    ZerosFirst();
    ZerosSecond();
    ZerosThird();
    ZerosFourth();
    NoTurns(0xc704dd7b);
  }
}
