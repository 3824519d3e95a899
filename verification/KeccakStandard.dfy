/** Keccak over bit strings, as FIPS 202 writes it down: sections 3.1 to 3.3, 4 and 5.1. */
module KeccakStandard {
  import opened KeccakConstants

  type BitString = seq<bool>

  // ---- the state array, section 3.1 ------------------------------------------------------

  /** Bit (x, y, z) of a state given as a string of 1600 bits. */
  function A(s: BitString, x: nat, y: nat, z: nat): bool
  {
    64 * (5 * y + x) + z < |s| && s[64 * (5 * y + x) + z]
  }

  function Make(f: (nat, nat, nat) -> bool): (s: BitString)
    ensures |s| == 1600
    ensures forall k :: 0 <= k < 1600 ==> s[k] == f(k / 64 % 5, k / 320, k % 64)
  {
    seq(1600, k requires 0 <= k => f(k / 64 % 5, k / 320, k % 64))
  }

  // ---- the step mappings, section 3.2 ----------------------------------------------------

  /** The sum of a column. */
  function C(s: BitString, x: nat, z: nat): bool
  {
    (((A(s, x, 0, z) != A(s, x, 1, z)) != A(s, x, 2, z)) != A(s, x, 3, z)) != A(s, x, 4, z)
  }

  function ThetaBit(s: BitString, x: nat, y: nat, z: nat): bool
  {
    A(s, x, y, z) != (C(s, (x + 4) % 5, z) != C(s, (x + 1) % 5, (z + 63) % 64))
  }

  function Theta(s: BitString): BitString
  {
    Make((x: nat, y: nat, z: nat) => ThetaBit(s, x, y, z))
  }

  /** The offsets of table 2, column by column. */
  function RhoOffset(x: nat, y: nat): nat
  {
    if x >= 5 || y >= 5 then 0
    else
      [[0, 36, 3, 105, 210],
       [1, 300, 10, 45, 66],
       [190, 6, 171, 15, 253],
       [28, 55, 153, 21, 120],
       [91, 276, 231, 136, 78]][x][y]
  }

  function RhoBit(s: BitString, x: nat, y: nat, z: nat): bool
  {
    var from: int := z - RhoOffset(x, y);
    A(s, x, y, from % 64)
  }

  function Rho(s: BitString): BitString
  {
    Make((x: nat, y: nat, z: nat) => RhoBit(s, x, y, z))
  }

  function PiBit(s: BitString, x: nat, y: nat, z: nat): bool
  {
    A(s, (x + 3 * y) % 5, x, z)
  }

  function Pi(s: BitString): BitString
  {
    Make((x: nat, y: nat, z: nat) => PiBit(s, x, y, z))
  }

  function ChiBit(s: BitString, x: nat, y: nat, z: nat): bool
  {
    A(s, x, y, z) != (!A(s, (x + 1) % 5, y, z) && A(s, (x + 2) % 5, y, z))
  }

  function Chi(s: BitString): BitString
  {
    Make((x: nat, y: nat, z: nat) => ChiBit(s, x, y, z))
  }

  /** Bit `z` of the round constant: the shift register's outputs at the places 2^j - 1. */
  function RC(round: nat, z: nat): bool
  {
    || (z == 0 && RegisterAt(7 * round).r0) || (z == 1 && RegisterAt(7 * round + 1).r0)
    || (z == 3 && RegisterAt(7 * round + 2).r0) || (z == 7 && RegisterAt(7 * round + 3).r0)
    || (z == 15 && RegisterAt(7 * round + 4).r0) || (z == 31 && RegisterAt(7 * round + 5).r0)
    || (z == 63 && RegisterAt(7 * round + 6).r0)
  }

  function IotaBit(s: BitString, round: nat, x: nat, y: nat, z: nat): bool
  {
    if x == 0 && y == 0 then A(s, x, y, z) != RC(round, z) else A(s, x, y, z)
  }

  function Iota(s: BitString, round: nat): BitString
  {
    Make((x: nat, y: nat, z: nat) => IotaBit(s, round, x, y, z))
  }

  /** Section 3.3. */
  function Round(s: BitString, round: nat): BitString
  {
    Iota(Chi(Pi(Rho(Theta(s)))), round)
  }

  /** Keccak-p[1600, n] from round 0 on; Keccak-f[1600] has 24 rounds. */
  function Rounds(s: BitString, n: nat): (r: BitString)
    ensures |s| == 1600 ==> |r| == 1600
  {
    if n == 0 then s else Round(Rounds(s, n - 1), n - 1)
  }

  // ---- the sponge, sections 4 and 5.1 ----------------------------------------------------

  function Zeros(n: nat): (r: BitString)
    ensures |r| == n && forall k :: 0 <= k < n ==> !r[k]
  {
    seq(n, k => false)
  }

  /** pad10*1 for the rate 1088. */
  function Pad(m: nat): BitString
  {
    var left: int := -2 - m;
    [true] + Zeros(left % 1088) + [true]
  }

  function Xor(s: BitString, t: BitString): (r: BitString)
    requires |s| == |t|
    ensures |r| == |s|
  {
    seq(|s|, k requires 0 <= k < |s| => s[k] != t[k])
  }

  /** The state after `n` blocks of `p`, with `rounds` rounds for the permutation. */
  function Absorb(p: BitString, n: nat, rounds: nat): (s: BitString)
    requires 1088 * n <= |p|
    ensures |s| == 1600
  {
    if n == 0 then Zeros(1600)
    else Rounds(Xor(Absorb(p, n - 1, rounds), p[1088 * (n - 1)..1088 * n] + Zeros(512)), rounds)
  }

  /** The first 256 bits squeezed out of a padded message. */
  function Sponge(m: BitString, rounds: nat): (d: BitString)
    ensures |d| == 256
  {
    var p := m + Pad(|m|);
    Absorb(p, |p| / 1088, rounds)[..256]
  }
}
