/** Types shared by all components: optional values and machine-sized numbers. */
module Common {
  datatype Option<+T> = None | Some(value: T)

  const TWO_32: int := 0x1_0000_0000

  type Byte = x: int | 0 <= x < 0x100
  type UInt16 = x: int | 0 <= x < 0x1_0000
  type UInt32 = x: int | 0 <= x < 0x1_0000_0000

  /** A number cut to 32 bits. */
  function Wrap32(n: nat): UInt32 { n % TWO_32 }

  function Min(a: int, b: int): int {
    if a <= b then a else b
  }

  /** A line break at index `i`. */
  predicate CrlfAt(s: string, i: nat) {
    i + 1 < |s| && s[i] == '\r' && s[i + 1] == '\n'
  }

  predicate IsDigit(c: char) { '0' <= c <= '9' }

  ghost predicate Distinct(xs: seq<nat>) {
    forall i, j :: 0 <= i < j < |xs| ==> xs[i] != xs[j]
  }

  /** Bit `k` of a number. */
  function Bit(x: nat, k: nat): nat { if k == 0 then x % 2 else Bit(x / 2, k - 1) }

  /** Bitwise "and". */
  function BitAnd(a: nat, b: nat): (r: nat)
    ensures r <= a
  {
    if a == 0 then 0
    else 2 * BitAnd(a / 2, b / 2) + if a % 2 == 1 && b % 2 == 1 then 1 else 0
  }

  /** Bitwise "a or not m", of numbers of the given width. */
  function OrNot(a: nat, m: nat, width: nat): (r: nat) {
    if width == 0 then 0
    else 2 * OrNot(a / 2, m / 2, width - 1) + if a % 2 == 1 || m % 2 == 0 then 1 else 0
  }

  lemma {:induction false} BitAndBit(a: nat, b: nat, k: nat)
    ensures Bit(BitAnd(a, b), k) == if Bit(a, k) == 1 && Bit(b, k) == 1 then 1 else 0
  {
    if a == 0 {
      ZeroBit(k);
    } else {
      assert BitAnd(a, b) / 2 == BitAnd(a / 2, b / 2);
      if k > 0 {
        BitAndBit(a / 2, b / 2, k - 1);
      }
    }
  }

  lemma {:induction false} ZeroBit(k: nat)
    ensures Bit(0, k) == 0
  {
    if k > 0 {
      ZeroBit(k - 1);
    }
  }
}
