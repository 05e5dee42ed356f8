/** `u32::to_be_bytes` and `from_be_bytes`, and the two's-complement cast between u32 and i32. */
module BigEndian {
  import opened Prelude

  function ToBytes(n: U32): (b: seq<Byte>)
    ensures |b| == 4
  {
    [n / 0x100_0000, n / 0x1_0000 % 0x100, n / 0x100 % 0x100, n % 0x100]
  }

  function FromBytes(b: seq<Byte>): U32
    requires |b| == 4
  {
    b[0] as int * 0x100_0000 + b[1] as int * 0x1_0000 + b[2] as int * 0x100 + b[3] as int
  }

  lemma FromUndoesTo(n: U32)
    ensures FromBytes(ToBytes(n)) == n
  {
    var n1, n2, n3 := n / 0x100, n / 0x1_0000, n / 0x100_0000;
    assert n == n1 * 0x100 + n % 0x100;
    assert n1 == n2 * 0x100 + n1 % 0x100;
    assert n2 == n3 * 0x100 + n2 % 0x100;
  }

  lemma ToUndoesFrom(b: seq<Byte>)
    requires |b| == 4
    ensures ToBytes(FromBytes(b)) == b
  {
    var n := FromBytes(b);
    assert n / 0x100_0000 == b[0];
    assert n / 0x1_0000 == b[0] as int * 0x100 + b[1] as int;
    assert n / 0x100 == (b[0] as int * 0x100 + b[1] as int) * 0x100 + b[2] as int;
  }

  /** The first place where the bytes differ decides, so the most significant byte comes first. */
  lemma OrderedByFirstDifference(m: U32, n: U32, k: nat)
    requires k < 4 && ToBytes(m)[..k] == ToBytes(n)[..k] && ToBytes(m)[k] != ToBytes(n)[k]
    ensures m < n <==> ToBytes(m)[k] < ToBytes(n)[k]
  {
    var a, b := ToBytes(m), ToBytes(n);
    assert forall i | 0 <= i < k :: a[..k][i] == b[..k][i];
    FromUndoesTo(m);
    FromUndoesTo(n);
    hide ToBytes;
    assert k > 0 ==> a[0] == b[0];
    assert k > 1 ==> a[1] == b[1];
    assert k > 2 ==> a[2] == b[2];
  }

  /** `x as u32` for an i32, and `x as i32` for a u32. */
  function Unsigned(x: I32): U32 { if x < 0 then x + TWO_32 else x }

  function Signed(n: U32): I32 { if n < 0x8000_0000 then n else n - TWO_32 }

  /** Both casts keep the number modulo 2^32, which determines them. */
  lemma CastsKeepResidue(x: I32, n: U32)
    ensures (Unsigned(x) - x) % TWO_32 == 0 && (n - Signed(n)) % TWO_32 == 0
    ensures Signed(Unsigned(x)) == x && Unsigned(Signed(n)) == n
  {}
}
