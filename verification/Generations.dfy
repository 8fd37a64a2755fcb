/** The generation of a recording, and the sentinel byte its frames carry so that
    they are not taken for those of an older file on the same clusters. */
module Generations {
  import opened Bytes

  function SentinelFor(gen: nat): (s: byte)
    ensures s != 0x00 && s != 0xFF && s != 0xAA
    ensures s == if gen % 256 in {0, 170, 255} then 165 else gen % 256
  {
    Sentinel(gen % 0x100)
  }

  function Sentinel(b: byte): (s: byte)
    ensures s != 0x00 && s != 0xFF && s != 0xAA
  {
    if b == 0x00 || b == 0xFF || b == 0xAA then 0xA5 else b
  }

  /** The generation taken when `g` comes up: one that shares its sentinel with the
      next is skipped. */
  function Chosen(g: u32): u32 {
    if SentinelFor(g) == SentinelFor((g + 1) % TWO32) then (g + 1) % TWO32 else g
  }

  /** The generation a file takes over an older one found in its clusters. */
  function NewGeneration(prior: nat): u32 {
    Chosen((prior + 1) % TWO32)
  }

  lemma LowByte(x: nat)
    ensures (x % TWO32) % 0x100 == x % 0x100
  {}

  lemma NextLowByte(x: nat)
    ensures (x + 1) % TWO32 % 0x100 == NextByte(x % 0x100)
  {
    LowByte(x + 1);
  }

  function NextByte(b: byte): byte {
    if b == 0xFF then 0 else b + 1
  }

  /** Frames of the older generation are told apart exactly unless its low byte
      was 0xFF, and no file ever takes such a generation. */
  lemma GenerationsDiffer(prior: nat)
    ensures SentinelFor(NewGeneration(prior)) != SentinelFor(prior) <==> prior % 0x100 != 0xFF
    ensures NewGeneration(prior) % 0x100 != 0xFF
  {
    var g := (prior + 1) % TWO32;
    NextLowByte(prior);
    NextLowByte(g);
    ByteGenerations(prior % 0x100);
  }

  /** The same on low bytes. */
  lemma ByteGenerations(b: byte)
    ensures var c := NextByte(b); var n := if Sentinel(c) == Sentinel(NextByte(c)) then NextByte(c) else c;
      (Sentinel(n) != Sentinel(b) <==> b != 0xFF) && n != 0xFF
  {}
}
