/** Length-trailer padding of packets. */
module Padder {
  import opened Bytes

  const TRAILER: nat := 4

  /** Big-endian bytes of a 32-bit number. */
  function ToBigEndian(n: nat): (b: seq<byte>)
    requires n < U32
    ensures |b| == TRAILER
  {
    [(n / 0x100_0000) as byte, (n / 0x1_0000 % 0x100) as byte, (n / 0x100 % 0x100) as byte, (n % 0x100) as byte]
  }

  function FromBigEndian(b: seq<byte>): (n: nat)
    requires |b| == TRAILER
    ensures n < U32
  {
    (b[0] as int) * 0x100_0000 + (b[1] as int) * 0x1_0000 + (b[2] as int) * 0x100 + (b[3] as int)
  }

  /** The number that four bytes write, most significant first. */
  function Number(a: byte, b: byte, c: byte, d: byte): nat {
    ((a as int * 256 + b as int) * 256 + c as int) * 256 + d as int
  }

  lemma {:induction false} EncodeDecode(n: nat)
    requires n < U32
    ensures FromBigEndian(ToBigEndian(n)) == n
  {
    var a := n / 0x100;
    var b := a / 0x100;
    var c := b / 0x100;
    assert n == b * 0x1_0000 + a % 0x100 * 0x100 + n % 0x100;
    assert n / 0x1_0000 == b;
    assert n == c * 0x100_0000 + b % 0x100 * 0x1_0000 + a % 0x100 * 0x100 + n % 0x100;
    assert n / 0x100_0000 == c;
  }

  lemma {:induction false} DecodeEncode(b: seq<byte>)
    requires |b| == TRAILER
    ensures ToBigEndian(FromBigEndian(b)) == b
  {
    var n := FromBigEndian(b);
    var hi := (b[0] as int) * 0x100 + (b[1] as int);
    var mid := hi * 0x100 + (b[2] as int);
    assert n == mid * 0x100 + (b[3] as int);
    assert n / 0x100 == mid && n % 0x100 == b[3] as int;
    assert n / 0x1_0000 == hi && mid % 0x100 == b[2] as int;
    assert n / 0x100_0000 == b[0] as int && hi % 0x100 == b[1] as int;
  }

  datatype PacketPadder = PacketPadder(targetSize: nat, padByte: byte, enabled: bool) {

    /** Size of the padded form of `n` bytes. */
    function PaddedSize(n: nat): nat {
      if n + TRAILER >= targetSize then n + TRAILER else targetSize
    }

    function Filler(k: nat): (f: seq<byte>)
      ensures |f| == k && forall i :: 0 <= i < k ==> f[i] == padByte
    {
      seq(k, _ => padByte)
    }

    /** Data, filler up to the target size, then the length as a 32-bit big-endian trailer. */
    function Padded(data: seq<byte>): (out: seq<byte>)
      ensures enabled ==> |out| == PaddedSize(|data|)
    {
      if !enabled then data
      else data + Filler(PaddedSize(|data|) - TRAILER - |data|) + ToBigEndian(|data| % U32)
    }

    /**
     * Data, filler, trailer: the packet has the target size unless data and trailer need more, and
     * ends in the length modulo 2^32, most significant byte first.
     */
    method Pad(data: seq<byte>) returns (out: seq<byte>)
      ensures out == Padded(data)
      ensures !enabled ==> out == data
      ensures enabled ==>
                && |out| == (if |data| + 4 >= targetSize then |data| + 4 else targetSize)
                && data <= out
                && (forall i :: |data| <= i < |out| - 4 ==> out[i] == padByte)
                && Number(out[|out| - 4], out[|out| - 3], out[|out| - 2], out[|out| - 1]) == |data| % U32
    {
      EncodeDecode(|data| % U32);
      if !enabled {
        return data;
      }
      var needed := |data| + TRAILER;
      var total := if needed >= targetSize then needed else targetSize;
      out := data;
      out := out + Filler(total - needed);
      out := out + ToBigEndian(|data| % U32);
    }

    /** The data named by the trailer, or the input itself if there is no usable trailer. */
    function Unpad(data: seq<byte>): (out: seq<byte>)
      ensures out <= data
    {
      if !enabled || |data| < TRAILER then data
      else
        var start := |data| - TRAILER;
        var n := FromBigEndian(data[start..]);
        if n > start then data else data[..n]
    }

    /** The trailer decides if it names no more than there is before it; otherwise nothing is cut. */
    lemma UnpadByTrailer(x: seq<byte>)
      ensures !enabled || |x| < 4 ==> Unpad(x) == x
      ensures enabled && |x| >= 4 ==>
                var n := Number(x[|x| - 4], x[|x| - 3], x[|x| - 2], x[|x| - 1]);
                Unpad(x) == if n <= |x| - 4 then x[..n] else x
    {
    }

    /** Unpadding a padded packet gives its first |d| mod 2^32 bytes: all of it below 4 GiB. */
    lemma UnpadOfPad(d: seq<byte>)
      ensures enabled ==> Unpad(Padded(d)) == d[..|d| % U32]
      ensures !enabled || |d| < U32 ==> Unpad(Padded(d)) == d
    {
      if enabled {
        var x := Padded(d);
        var start := |x| - TRAILER;
        assert x[start..] == ToBigEndian(|d| % U32);
        EncodeDecode(|d| % U32);
        assert x[..|d|] == d;
      }
    }

    /** A well-formed packet: usable trailer, nothing but filler before it, and the canonical size. */
    ghost predicate Canonical(x: seq<byte>) {
      |x| >= TRAILER &&
      var start := |x| - TRAILER;
      var n := FromBigEndian(x[start..]);
      && n <= start
      && |x| == (if n + 4 >= targetSize then n + 4 else targetSize)
      && forall i :: n <= i < start ==> x[i] == padByte
    }

    /** With padding on, the packets that padding restores are exactly the canonical ones. */
    lemma PadOfUnpad(x: seq<byte>)
      requires enabled
      ensures Padded(Unpad(x)) == x <==> Canonical(x)
    {
      if |x| >= TRAILER && FromBigEndian(x[|x| - TRAILER..]) <= |x| - TRAILER {
        var start := |x| - TRAILER;
        var n := FromBigEndian(x[start..]);
        var y := Padded(x[..n]);
        DecodeEncode(x[start..]);
        assert n % U32 == n;
        var k := PaddedSize(n) - TRAILER - n;
        assert y == x[..n] + Filler(k) + x[start..];
        assert forall i :: n <= i < n + k ==> y[i] == padByte;
        if Canonical(x) {
          assert Filler(k) == x[n..start];
          assert x == x[..n] + x[n..start] + x[start..];
        }
      }
    }
  }
}
