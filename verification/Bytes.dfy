/** Bytes, little-endian words and replaced stretches of a byte image. */
module Bytes {
  type byte = x: int | 0 <= x < 256
  type u32 = x: int | 0 <= x < 0x1_0000_0000
  type u16 = x: int | 0 <= x < 0x1_0000

  const WORD_LIMIT := 0x1_0000_0000

  /** Unsigned increment with wrap-around. */
  function Inc(x: u32): u32 { (x + 1) % WORD_LIMIT }

  function Le16(v: u16): (b: seq<byte>)
    ensures |b| == 2
  {
    [v % 256, v / 256]
  }

  function FromLe16(b: seq<byte>): u16
    requires |b| == 2
  {
    b[0] as int + 256 * (b[1] as int)
  }

  function Le32(v: u32): (b: seq<byte>)
    ensures |b| == 4
  {
    Le16(v % 0x1_0000) + Le16(v / 0x1_0000)
  }

  function FromLe32(b: seq<byte>): u32
    requires |b| == 4
  {
    FromLe16(b[..2]) as int + 0x1_0000 * (FromLe16(b[2..]) as int)
  }

  lemma Le32RoundTrip(v: u32)
    ensures FromLe32(Le32(v)) == v
  {
    assert Le32(v)[..2] == Le16(v % 0x1_0000) && Le32(v)[2..] == Le16(v / 0x1_0000);
  }

  lemma Le32OfParsed(b: seq<byte>)
    requires |b| == 4
    ensures Le32(FromLe32(b)) == b
  {
    Le16OfParsed(b[..2]);
    Le16OfParsed(b[2..]);
    assert b == b[..2] + b[2..];
    hide FromLe16, Le16;
    hide FromLe32, Le32;
    JoinedHalves(FromLe16(b[..2]), FromLe16(b[2..]));
    ParsedHalves(b);
  }

  lemma ParsedHalves(b: seq<byte>)
    requires |b| == 4
    ensures FromLe32(b) == FromLe16(b[..2]) as int + 0x1_0000 * (FromLe16(b[2..]) as int)
  {
  }

  lemma JoinedHalves(low: u16, high: u16)
    ensures Le32(low as int + 0x1_0000 * (high as int)) == Le16(low) + Le16(high)
  {
    hide Le16;
    HalvesOf(low, high);
  }

  lemma HalvesOf(low: u16, high: u16)
    ensures (low as int + 0x1_0000 * high as int) % 0x1_0000 == low && (low as int + 0x1_0000 * high as int) / 0x1_0000 == high
  {
  }

  lemma Le16OfParsed(b: seq<byte>)
    requires |b| == 2
    ensures Le16(FromLe16(b)) == b
  {
  }

  /** A run of words, each little-endian. */
  function Words(ws: seq<u32>): (b: seq<byte>)
    ensures |b| == 4 * |ws|
  {
    if ws == [] then [] else Le32(ws[0]) + Words(ws[1..])
  }

  function ParseWords(b: seq<byte>, n: nat): (ws: seq<u32>)
    requires |b| == 4 * n
    ensures |ws| == n
  {
    if n == 0 then [] else [FromLe32(b[..4])] + ParseWords(b[4..], n - 1)
  }

  lemma {:induction false} WordsRoundTrip(ws: seq<u32>)
    ensures ParseWords(Words(ws), |ws|) == ws
  {
    if ws != [] {
      Le32RoundTrip(ws[0]);
      WordsRoundTrip(ws[1..]);
      assert Words(ws)[..4] == Le32(ws[0]) && Words(ws)[4..] == Words(ws[1..]);
    }
  }

  function Fill(v: byte, n: nat): (b: seq<byte>)
    ensures |b| == n && forall i :: 0 <= i < n ==> b[i] == v
  {
    seq(n, _ => v)
  }

  /** The image with the bytes from `offset` replaced by `data`. */
  function Splice(mem: seq<byte>, offset: nat, data: seq<byte>): (r: seq<byte>)
    requires offset + |data| <= |mem|
    ensures |r| == |mem|
  {
    mem[..offset] + data + mem[offset + |data|..]
  }

  lemma SpliceAt(mem: seq<byte>, offset: nat, data: seq<byte>)
    requires offset + |data| <= |mem|
    ensures forall i :: 0 <= i < |mem| ==>
      Splice(mem, offset, data)[i] == if offset <= i < offset + |data| then data[i - offset] else mem[i]
  {
  }

  lemma SpliceElsewhere(mem: seq<byte>, offset: nat, data: seq<byte>, lo: nat, hi: nat)
    requires offset + |data| <= |mem| && lo <= hi <= |mem|
    requires hi <= offset || offset + |data| <= lo
    ensures Splice(mem, offset, data)[lo..hi] == mem[lo..hi]
  {
  }

  lemma SpliceThere(mem: seq<byte>, offset: nat, data: seq<byte>)
    requires offset + |data| <= |mem|
    ensures Splice(mem, offset, data)[offset..offset + |data|] == data
  {
  }

  lemma SliceOfSlice(s: seq<byte>, a: nat, b: nat, c: nat, d: nat)
    requires a <= b <= |s| && c <= d <= b - a
    ensures s[a..b][c..d] == s[a + c..a + d]
  {
    var whole, part := s[a..b], s[a + c..a + d];
    forall i | 0 <= i < d - c ensures whole[c..d][i] == part[i] {
      assert whole[c + i] == s[a + (c + i)];
    }
    assert whole[c..d] == part;
  }

  lemma SliceOfPrefix(s: seq<byte>, b: nat, c: nat, d: nat)
    requires b <= |s| && c <= d <= b
    ensures s[..b][c..d] == s[c..d]
  {
    var whole, part := s[..b], s[c..d];
    assert forall i :: 0 <= i < d - c ==> whole[c..d][i] == part[i];
  }

  /** The first k spliced bytes continue what stands before them. */
  lemma SpliceExtends(mem: seq<byte>, lo: nat, offset: nat, data: seq<byte>, k: nat)
    requires lo <= offset && offset + |data| <= |mem| && k <= |data|
    ensures Splice(mem, offset, data)[lo..offset + k] == mem[lo..offset] + data[..k]
  {
    SpliceAt(mem, offset, data);
  }

  /** The spliced bytes from the k-th on are followed by what stood there before. */
  lemma SpliceContinues(mem: seq<byte>, offset: nat, data: seq<byte>, k: nat, hi: nat)
    requires offset + |data| <= hi <= |mem| && k <= |data|
    ensures Splice(mem, offset, data)[offset + k..hi] == data[k..] + mem[offset + |data|..hi]
  {
    var whole := Splice(mem, offset, data);
    var stretch, parts := whole[offset + k..hi], data[k..] + mem[offset + |data|..hi];
    SpliceAt(mem, offset, data);
    assert |stretch| == |parts|;
    forall i | 0 <= i < |stretch| ensures stretch[i] == parts[i] {
      assert stretch[i] == whole[offset + k + i];
    }
  }

  lemma FillJoins(v: byte, m: nat, n: nat)
    ensures Fill(v, m) + Fill(v, n) == Fill(v, m + n)
  {
  }

  lemma FillSlice(v: byte, n: nat, a: nat, b: nat)
    requires a <= b <= n
    ensures Fill(v, n)[a..b] == Fill(v, b - a)
  {
  }
}
