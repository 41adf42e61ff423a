// The tracee's memory as ptrace(PTRACE_PEEKDATA) shows it: one signed 64-bit
// word at a time, at any address, with -1 both a legal word and the error
// value, errno telling the two apart.

module RemoteMemory {
  import opened Base

  type Errno = e: int | 0 < e < 4096 witness 1

  const ESRCH: Errno := 3
  const EIO: Errno := 5

  // `bytes` holds the mapped addresses. `faults` are the addresses at which a
  // peek fails with an error of its own (the tracee dies between two peeks, a
  // region is refused); any other peek that touches an unmapped byte gets EIO.
  datatype Memory = Memory(bytes: map<Word, byte>, faults: map<Word, Errno>)

  datatype Peeked = Peeked(word: int, errno: nat)

  predicate WordMapped(m: Memory, a: Word) {
    forall i :: 0 <= i < 8 ==> At(a, i) in m.bytes
  }

  function WordBytes(m: Memory, a: Word): seq<byte>
    requires WordMapped(m, a)
  {
    seq(8, i requires 0 <= i < 8 => m.bytes[At(a, i)])
  }

  function Peek(m: Memory, a: Word): Peeked {
    if a in m.faults then Peeked(-1, m.faults[a])
    else if WordMapped(m, a) then Peeked(LongOf(WordBytes(m, a)), 0)
    else Peeked(-1, EIO)
  }

  // ---- the union { long iword; char bytes[8]; } on a little-endian machine

  function Pow256(k: nat): nat {
    if k == 0 then 1 else 256 * Pow256(k - 1)
  }

  function Unsigned(b: seq<byte>): nat {
    if b == [] then 0 else b[0] + 256 * Unsigned(b[1..])
  }

  function Digits(n: nat, k: nat): (b: seq<byte>)
    ensures |b| == k
  {
    if k == 0 then [] else [n % 256] + Digits(n / 256, k - 1)
  }

  function LongOf(b: seq<byte>): int
    requires |b| == 8
  {
    var u := Unsigned(b);
    if u < TWO_63 then u else u - TWO_64
  }

  function BytesOf(iword: int): (b: seq<byte>)
    requires -TWO_63 <= iword < TWO_63
    ensures |b| == 8
  {
    Digits(if iword < 0 then iword + TWO_64 else iword, 8)
  }

  lemma {:induction false} UnsignedBound(b: seq<byte>)
    ensures Unsigned(b) < Pow256(|b|)
  {
    if b != [] {
      UnsignedBound(b[1..]);
    }
  }

  lemma {:induction false} DigitsOfUnsigned(b: seq<byte>)
    ensures Digits(Unsigned(b), |b|) == b
  {
    if b != [] {
      var rest := Unsigned(b[1..]);
      DivModUnique(Unsigned(b), 256, rest, b[0]);
      DigitsOfUnsigned(b[1..]);
      assert b == [b[0]] + b[1..];
    }
  }

  lemma {:induction false} Pow256At8()
    ensures Pow256(8) == TWO_64
  {
    assert Pow256(4) == 0x1_0000_0000;
    assert Pow256(6) == 0x1_0000_0000_0000;
  }

  // Storing a peeked word in the union and reading it back as chars gives the
  // tracee's bytes, for every eight bytes, the all-ones word included.
  lemma {:induction false} UnionRoundTrip(b: seq<byte>)
    requires |b| == 8
    ensures -TWO_63 <= LongOf(b) < TWO_63
    ensures BytesOf(LongOf(b)) == b
  {
    UnsignedBound(b);
    Pow256At8();
    DigitsOfUnsigned(b);
  }

  // The error test of the two readers: the sentinel alone is not enough.
  predicate Failed(p: Peeked) {
    p.word == -1 && p.errno != 0
  }

  // A peek fails the test exactly when ptrace reported an error; otherwise the
  // union holds the eight bytes at `a`.
  lemma {:induction false} PeekIsExact(m: Memory, a: Word)
    ensures Failed(Peek(m, a)) <==> a in m.faults || !WordMapped(m, a)
    ensures !Failed(Peek(m, a)) ==>
              && -TWO_63 <= Peek(m, a).word < TWO_63
              && BytesOf(Peek(m, a).word) == WordBytes(m, a)
  {
    if WordMapped(m, a) {
      UnionRoundTrip(WordBytes(m, a));
    }
  }

  // A mapped word of eight 0xff bytes reads as the sentinel and is accepted.
  lemma {:induction false} AllOnesIsNotAnError(m: Memory, a: Word)
    requires a !in m.faults && WordMapped(m, a)
    requires forall i :: 0 <= i < 8 ==> m.bytes[At(a, i)] == 255
    ensures Peek(m, a).word == -1 && !Failed(Peek(m, a))
  {
    var b := WordBytes(m, a);
    forall i | 0 <= i < 8 ensures b[i] == 255 {
      assert m.bytes[At(a, i)] == 255;
    }
    UnionRoundTrip(b);
    assert BytesOf(-1) == Digits(TWO_64 - 1, 8) == b by {
      AllOnesDigits(b);
    }
    assert Unsigned(b) == TWO_64 - 1 by {
      UnsignedAllOnes(b);
      Pow256At8();
    }
  }

  lemma {:induction false} UnsignedAllOnes(b: seq<byte>)
    requires forall i :: 0 <= i < |b| ==> b[i] == 255
    ensures Unsigned(b) == Pow256(|b|) - 1
  {
    if b != [] {
      UnsignedAllOnes(b[1..]);
    }
  }

  lemma {:induction false} AllOnesDigits(b: seq<byte>)
    requires |b| == 8
    requires forall i :: 0 <= i < |b| ==> b[i] == 255
    ensures Digits(TWO_64 - 1, 8) == b
  {
    UnsignedAllOnes(b);
    Pow256At8();
    DigitsOfUnsigned(b);
  }
}
