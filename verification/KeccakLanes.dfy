/** Bytes and 64-bit lanes as their bits, least significant first. */
module KeccakLanes {

  type Lane = seq<bool>
  type Byte = seq<bool>

  predicate Bit(v: Lane, z: int)
  {
    0 <= z < |v| && v[z]
  }

  function Zero(): Lane
  {
    seq(64, z => false)
  }

  function Xor(a: Lane, b: Lane): (r: Lane)
    ensures |r| == 64 && forall z :: 0 <= z < 64 ==> r[z] == (Bit(a, z) != Bit(b, z))
  {
    seq(64, z => Bit(a, z) != Bit(b, z))
  }

  function And(a: Lane, b: Lane): (r: Lane)
    ensures |r| == 64 && forall z :: 0 <= z < 64 ==> r[z] == (Bit(a, z) && Bit(b, z))
  {
    seq(64, z => Bit(a, z) && Bit(b, z))
  }

  /** Complement within the 64-bit mask. */
  function Not(a: Lane): (r: Lane)
    ensures |r| == 64 && forall z :: 0 <= z < 64 ==> r[z] == !Bit(a, z)
  {
    seq(64, z => !Bit(a, z))
  }

  /** The two shifts of the source joined and masked: bit `z` of `v << s | v >> 64 - s`. */
  function Rol(v: Lane, shift: nat): (r: Lane)
    ensures |r| == 64
  {
    seq(64, z => Bit(v, z - shift % 64) || Bit(v, z + 64 - shift % 64))
  }

  /** A rotation: every bit moves up by `shift` places, round the lane. */
  lemma RolMoves(v: Lane, shift: nat, z: nat)
    requires |v| == 64 && z < 64
    ensures Rol(v, shift)[z] == v[(z + 64 - shift % 64) % 64]
  {
    var s := shift % 64;
    if z >= s {
      assert (z + 64 - s) % 64 == z - s;
      assert !Bit(v, z + 64 - s) && Rol(v, shift)[z] == Bit(v, z - s);
    } else {
      assert (z + 64 - s) % 64 == z + 64 - s;
      assert !Bit(v, z - s) && Rol(v, shift)[z] == Bit(v, z + 64 - s);
    }
  }

  /** No bit is lost. */
  lemma RolInjective(v: Lane, w: Lane, shift: nat)
    requires |v| == |w| == 64 && Rol(v, shift) == Rol(w, shift)
    ensures v == w
  {
    forall z | 0 <= z < 64 ensures v[z] == w[z] {
      var up := (z + shift % 64) % 64;
      RolMoves(v, shift, up);
      RolMoves(w, shift, up);
      assert (up + 64 - shift % 64) % 64 == z;
    }
  }

  /** The low `n` bits of a number. */
  function Bits(value: nat, n: nat): (r: seq<bool>)
    ensures |r| == n
  {
    if n == 0 then [] else [value % 2 == 1] + Bits(value / 2, n - 1)
  }

  /** Bytes joined little-endian: the bits of the first one come first. */
  function Joined(bytes: seq<Byte>): seq<bool>
  {
    if bytes == [] then [] else bytes[0] + Joined(bytes[1..])
  }

  predicate AreBytes(data: seq<Byte>)
  {
    forall k :: 0 <= k < |data| ==> |data[k]| == 8
  }

  lemma {:induction false} JoinedLength(b: seq<Byte>)
    requires AreBytes(b)
    ensures |Joined(b)| == 8 * |b|
  {
    if b != [] {
      JoinedLength(b[1..]);
    }
  }

  lemma {:induction false} JoinedAppend(a: seq<Byte>, b: seq<Byte>)
    ensures Joined(a + b) == Joined(a) + Joined(b)
  {
    if a == [] {
      assert a + b == b;
    } else {
      JoinedAppend(a[1..], b);
      assert (a + b)[1..] == a[1..] + b;
    }
  }

  lemma JoinedOne(b: Byte)
    ensures Joined([b]) == b
  {
    assert [b][1..] == [];
  }

  /** A slice of bytes is a slice of bits. */
  lemma JoinedSlice(p: seq<Byte>, a: nat, b: nat)
    requires AreBytes(p) && a <= b <= |p|
    ensures |Joined(p)| == 8 * |p| && Joined(p)[8 * a..8 * b] == Joined(p[a..b])
  {
    JoinedLength(p);
    JoinedLength(p[..a]);
    JoinedLength(p[a..b]);
    JoinedAppend(p[..a], p[a..b]);
    JoinedAppend(p[..b], p[b..]);
    assert p[..a] + p[a..b] == p[..b] && p[..b] + p[b..] == p;
  }
}
