// Bytes, machine words and the few facts about sequences that every other module uses.

module Base {

  type byte = b: int | 0 <= b < 256

  const TWO_31 := 0x8000_0000
  const TWO_32 := 0x1_0000_0000
  const TWO_63 := 0x8000_0000_0000_0000
  const TWO_64 := 0x1_0000_0000_0000_0000

  // A general register, a size_t, or an address: 64 bits, unsigned.
  type Word = w: int | 0 <= w < TWO_64

  datatype Option<+T> = None | Some(value: T)

  // Address arithmetic wraps at 64 bits.
  function Wrap(n: nat): (w: Word)
    ensures n < TWO_64 ==> w == n
    ensures w % 8 == n % 8
  {
    n % TWO_64
  }

  // `(ssize_t)n`
  function AsSsize(n: Word): (r: int)
    ensures -0x8000_0000_0000_0000 <= r < 0x8000_0000_0000_0000
    ensures 0 <= r ==> r == n
    ensures n < TWO_63 <==> 0 <= r
  {
    if n < TWO_63 then n else n - TWO_64
  }

  // Both keep the number modulo 2 to the 64.
  lemma {:induction false} WordsAreModular(n: nat, w: Word)
    ensures n - Wrap(n) == 0x1_0000_0000_0000_0000 * (n / 0x1_0000_0000_0000_0000)
    ensures w - AsSsize(w) == 0 || w - AsSsize(w) == 0x1_0000_0000_0000_0000
  {
  }

  // `(int)w`
  function AsInt(w: Word): (r: int)
    ensures -0x8000_0000 <= r < 0x8000_0000
    ensures (w - r) % 0x1_0000_0000 == 0
  {
    var low := w % TWO_32;
    if low < TWO_31 then low else low - TWO_32
  }

  function Repeat<T>(s: seq<T>, n: nat): seq<T> {
    if n == 0 then [] else s + Repeat(s, n - 1)
  }

  lemma {:induction false} PrefixTransitive<T>(a: seq<T>, b: seq<T>, c: seq<T>)
    requires a <= b && b <= c
    ensures a <= c
  {
  }

  lemma {:induction false} ConcatAssoc<T>(a: seq<T>, b: seq<T>, c: seq<T>)
    ensures a + b + c == a + (b + c)
  {
  }

  // Address `a + i`.
  function At(a: Word, i: nat): (w: Word)
    ensures w % 8 == (a + i) % 8
  {
    Wrap(a + i)
  }

  lemma {:induction false} AtAt(a: Word, i: nat, j: nat)
    ensures At(At(a, i), j) == At(a, i + j)
  {
  }

  // Quotient and remainder are determined by their defining equation.
  lemma {:induction false} DivModUnique(n: nat, m: nat, d: nat, r: nat)
    requires n == d * m + r && r < m
    ensures n / m == d && n % m == r
  {
    var e, s := n / m, n % m;
    assert n == e * m + s;
    if e > d {
      MulAtLeast(e, d, m);
    } else if d > e {
      MulAtLeast(d, e, m);
    }
  }

  lemma {:induction false} MulAtLeast(e: nat, d: nat, m: nat)
    requires d < e
    ensures d * m + m <= e * m
  {
    assert (e - d - 1) * m >= 0;
    assert e * m == d * m + m + (e - d - 1) * m;
  }
}
