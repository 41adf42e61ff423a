// What a remote read means, for every memory, address, length and failure.

module RemoteReadFacts {
  import opened Base
  import opened RemoteMemory
  import opened RemoteRead

  // One step of the simple form.
  lemma {:induction false} ReadFromStep(m: Memory, a: Word, len: Word, done: Word)
    requires 0 < len && done + len < TWO_64
    ensures Failed(Peek(m, a)) ==>
              ReadFrom(m, a, len, done) == Outcome([], Failure(done, Peek(m, a).errno), [a])
    ensures !Failed(Peek(m, a)) ==>
              && WordMapped(m, a)
              && var c := Chunk(a, len);
                 var rest := ReadFrom(m, At(a, c), len - c, done + c);
                 ReadFrom(m, a, len, done) == Outcome(WordBytes(m, a)[..c] + rest.data, rest.rc, [a] + rest.peeks)
  {
    PeekIsExact(m, a);
  }

  lemma {:induction false} ReadFromNothing(m: Memory, a: Word, done: Word)
    ensures ReadFrom(m, a, 0, done) == Outcome([], AsSsize(done), [])
  {
  }

  // ---- contents

  ghost predicate Shows(m: Memory, a: Word, data: seq<byte>) {
    forall i :: 0 <= i < |data| ==> At(a, i) in m.bytes && data[i] == m.bytes[At(a, i)]
  }

  lemma {:induction false} ShowsConcat(m: Memory, a: Word, c: nat, x: seq<byte>, y: seq<byte>)
    requires |x| == c && Shows(m, a, x) && Shows(m, At(a, c), y)
    ensures Shows(m, a, x + y)
  {
    forall i | 0 <= i < |x + y|
      ensures At(a, i) in m.bytes && (x + y)[i] == m.bytes[At(a, i)]
    {
      if c <= i {
        AtAt(a, c, i - c);
        assert y[i - c] == m.bytes[At(At(a, c), i - c)];
      }
    }
  }

  lemma {:induction false} ReadFromShows(m: Memory, a: Word, len: Word, done: Word)
    requires done + len < TWO_64
    ensures Shows(m, a, ReadFrom(m, a, len, done).data)
    decreases len
  {
    if len != 0 && !Failed(Peek(m, a)) {
      var c := Chunk(a, len);
      PeekIsExact(m, a);
      ReadFromShows(m, At(a, c), len - c, done + c);
      ShowsConcat(m, a, c, WordBytes(m, a)[..c], ReadFrom(m, At(a, c), len - c, done + c).data);
    }
  }

  // Whatever is read is the tracee's memory from the start of the region, and
  // never more than was asked for.
  lemma {:induction false} ReadShowsMemory(m: Memory, a: Word, len: Word)
    ensures |Read(m, a, len).data| <= len
    ensures Shows(m, a, Read(m, a, len).data)
  {
    ReadLength(m, a, len);
    if !(len == 0 && a % 8 != 0) {
      ReadFromShows(m, a, len, 0);
    }
  }

  // ---- the value returned

  // Where and why a read that fell short stopped.
  ghost predicate StoppedAt(m: Memory, a: Word, done: Word, o: Outcome) {
    var stop := At(a, |o.data|);
    && o.peeks != [] && o.peeks[|o.peeks| - 1] == stop
    && Failed(Peek(m, stop))
    && done + |o.data| < TWO_64
    && o.rc == Failure(done + |o.data|, Peek(m, stop).errno)
    && forall i :: 0 <= i < |o.peeks| - 1 ==> !Failed(Peek(m, o.peeks[i]))
  }

  ghost predicate RanThrough(m: Memory, len: Word, done: Word, o: Outcome) {
    && |o.data| == len
    && done + len < TWO_64
    && o.rc == AsSsize(done + len)
    && forall i :: 0 <= i < |o.peeks| ==> !Failed(Peek(m, o.peeks[i]))
  }

  // A good peek in front changes neither way of ending.
  lemma {:induction false} EndsLater(m: Memory, a: Word, len: Word, done: Word, x: seq<byte>, rest: Outcome)
    requires |x| <= len && done + len < TWO_64 && !Failed(Peek(m, a))
    ensures var o := Outcome(x + rest.data, rest.rc, [a] + rest.peeks);
            && (RanThrough(m, len - |x|, done + |x|, rest) ==> RanThrough(m, len, done, o))
            && (StoppedAt(m, At(a, |x|), done + |x|, rest) ==> StoppedAt(m, a, done, o))
  {
    hide RemoteMemory.Peek, RemoteMemory.Failed;
    AtAt(a, |x|, |rest.data|);
    var peeks := [a] + rest.peeks;
    assert forall i :: 0 < i < |peeks| ==> peeks[i] == rest.peeks[i - 1];
  }

  lemma {:induction false} ReadFromEnds(m: Memory, a: Word, len: Word, done: Word)
    requires done + len < TWO_64
    ensures var o := ReadFrom(m, a, len, done);
            RanThrough(m, len, done, o) || (|o.data| < len && StoppedAt(m, a, done, o))
    decreases len
  {
    hide RemoteMemory.Peek, RemoteMemory.WordMapped, RemoteMemory.Failed, ReadFrom;
    if len == 0 {
      ReadFromNothing(m, a, done);
      return;
    }
    ReadFromStep(m, a, len, done);
    if Failed(Peek(m, a)) {
      assert At(a, 0) == a;
    } else {
      var c := Chunk(a, len);
      hide RanThrough, StoppedAt;
      ReadFromEnds(m, At(a, c), len - c, done + c);
      EndsLater(m, a, len, done, WordBytes(m, a)[..c], ReadFrom(m, At(a, c), len - c, done + c));
    }
  }

  // A read either gets every byte, every peek having succeeded, and returns the
  // length; or it stops at the first peek that failed, which is the one at
  // `a + |data|`, and returns the count only for EIO after some progress, and -1
  // otherwise.
  lemma {:induction false} ReadEnds(m: Memory, a: Word, len: Word)
    ensures var o := Read(m, a, len);
            && (RanThrough(m, len, 0, o) || StoppedAt(m, a, 0, o))
            && (StoppedAt(m, a, 0, o) ==> |o.data| < len || len == 0)
    ensures var o := Read(m, a, len);
            var errno := Peek(m, At(a, |o.data|)).errno;
            if |o.data| == len && len != 0 then
              len < 0x8000_0000_0000_0000 ==> o.rc == len
            else if len != 0 && errno == 5 && o.data != [] then
              |o.data| < 0x8000_0000_0000_0000 ==> o.rc == |o.data|
            else if len != 0 then
              errno != 0 && o.rc == -1
            else
              o.rc == 0 || (o.rc == -1 && a % 8 != 0 && errno != 0)
  {
    if len == 0 && a % 8 != 0 {
      AtAt(a, 0, 0);
    } else {
      ReadFromEnds(m, a, len, 0);
    }
  }

  // An empty range: an unaligned address is peeked at once, with -1 if that fails,
  // and an aligned one not at all.
  lemma {:induction false} EmptyRead(m: Memory, a: Word)
    ensures Read(m, a, 0).data == []
    ensures a % 8 == 0 ==> Read(m, a, 0).rc == 0 && Read(m, a, 0).peeks == []
    ensures a % 8 != 0 ==>
              Read(m, a, 0).rc == (if Failed(Peek(m, a)) then -1 else 0) && Read(m, a, 0).peeks == [a]
  {
  }

  // A non-negative result counts the bytes stored; a short one means EIO at the
  // next address.
  lemma {:induction false} NonNegativeResult(m: Memory, a: Word, len: Word)
    requires 0 <= Read(m, a, len).rc
    ensures Read(m, a, len).rc == |Read(m, a, len).data| <= len
    ensures Read(m, a, len).rc < len ==>
              && 0 < Read(m, a, len).rc
              && Peek(m, At(a, Read(m, a, len).rc)) == Peeked(-1, 5)
  {
    ReadEnds(m, a, len);
    ReadLength(m, a, len);
  }

  // ---- which addresses are peeked at, and how often

  // The number of aligned words that a range touches.
  function WordsTouched(a: Word, len: Word): nat
    requires 0 < len
  {
    (a + len - 1) / 8 - a / 8 + 1
  }

  ghost predicate PeeksInOrder(a: Word, peeks: seq<Word>) {
    && peeks != [] && peeks[0] == a
    && forall i :: 0 < i < |peeks| ==> peeks[i] == At(a - a % 8, 8 * i)
  }

  lemma {:induction false} PeeksCons(a: Word, peeks: seq<Word>)
    requires peeks == [] || PeeksInOrder(At(a - a % 8, 8), peeks)
    ensures PeeksInOrder(a, [a] + peeks)
  {
    hide Base.At;
    var all := [a] + peeks;
    forall i | 0 < i < |all| ensures all[i] == At(a - a % 8, 8 * i) {
      assert all[i] == peeks[i - 1];
      AtAt(a - a % 8, 8, 8 * (i - 1));
    }
  }

  lemma {:induction false} WordsTouchedStep(a: Word, len: Word)
    requires 0 < len
    ensures var c := Chunk(a, len);
            WordsTouched(a, len) == if c == len then 1 else 1 + WordsTouched(At(a, c), len - c)
  {
  }

  lemma {:induction false} ReadFromPeeks(m: Memory, a: Word, len: Word, done: Word)
    requires done + len < TWO_64 && 0 < len
    ensures var o := ReadFrom(m, a, len, done);
            && PeeksInOrder(a, o.peeks)
            && (|o.data| == len ==> |o.peeks| == WordsTouched(a, len))
    decreases len
  {
    hide RemoteMemory.Peek, RemoteMemory.WordMapped, RemoteMemory.Failed, ReadFrom, PeeksInOrder, WordsTouched;
    ReadFromStep(m, a, len, done);
    WordsTouchedStep(a, len);
    PeeksCons(a, []);
    assert [a] + [] == [a];
    var c := Chunk(a, len);
    if c < len {
      assert At(a, c) == At(a - a % 8, 8);
      ReadFromPeeks(m, At(a, c), len - c, done + c);
      PeeksCons(a, ReadFrom(m, At(a, c), len - c, done + c).peeks);
    } else {
      ReadFromNothing(m, At(a, c), done + c);
    }
  }

  // One peek per aligned word the region touches, in ascending order, all of them
  // aligned but possibly the first.
  lemma {:induction false} PeeksAreExact(m: Memory, a: Word, len: Word)
    requires 0 < len
    ensures var o := Read(m, a, len);
            && o.peeks != [] && o.peeks[0] == a
            && (forall i :: 0 < i < |o.peeks| ==> o.peeks[i] == At(a - a % 8, 8 * i) && o.peeks[i] % 8 == 0)
            && (|o.data| == len ==> |o.peeks| == WordsTouched(a, len))
  {
    hide ReadFrom, RemoteMemory.Peek, RemoteMemory.WordMapped;
    assert Read(m, a, len) == ReadFrom(m, a, len, 0);
    ReadFromPeeks(m, a, len, 0);
  }

  // ---- when a mapped region is read whole

  predicate PageSize(p: nat) {
    0 < p && p % 8 == 0
  }

  function PageOf(a: Word, p: nat): int
    requires PageSize(p)
  {
    a / p
  }

  // Memory is mapped in pages of p bytes.
  ghost predicate Paged(m: Memory, p: nat)
    requires PageSize(p)
  {
    forall a: Word, b: Word ::
      a in m.bytes && PageOf(a, p) == PageOf(b, p) ==> b in m.bytes
  }

  lemma {:induction false} SamePage(a: Word, i: nat, p: nat)
    requires PageSize(p) && a % 8 == 0 && i < 8 && a + i < TWO_64
    ensures PageOf(a + i, p) == PageOf(a, p)
  {
    var q, k := p / 8, a / 8;
    var d, r := k / q, k % q;
    assert k == d * q + r;
    assert a == d * p + 8 * r by {
      assert d * (8 * q) == 8 * (d * q);
    }
    DivModUnique(a, p, d, 8 * r);
    DivModUnique(a + i, p, d, 8 * r + i);
  }

  // An aligned word cannot straddle pages.
  lemma {:induction false} AlignedWordIsWhole(m: Memory, p: nat, a: Word)
    requires PageSize(p) && Paged(m, p) && a % 8 == 0 && a in m.bytes
    ensures WordMapped(m, a)
  {
    forall i | 0 <= i < 8 ensures At(a, i) in m.bytes {
      SamePage(a, i, p);
    }
  }

  ghost predicate RegionMapped(m: Memory, a: Word, len: Word) {
    forall i :: 0 <= i < len ==> At(a, i) in m.bytes
  }

  lemma {:induction false} AlignedReadIsWhole(m: Memory, p: nat, a: Word, len: Word, done: Word)
    requires PageSize(p) && Paged(m, p) && m.faults == map[]
    requires a % 8 == 0 && done + len < TWO_64 && RegionMapped(m, a, len)
    ensures |ReadFrom(m, a, len, done).data| == len
    decreases len
  {
    if len != 0 {
      assert At(a, 0) == a;
      AlignedWordIsWhole(m, p, a);
      PeekIsExact(m, a);
      var c := Chunk(a, len);
      if c < len {
        RegionTail(m, a, len, c);
        AlignedReadIsWhole(m, p, At(a, c), len - c, done + c);
      }
    }
  }

  lemma {:induction false} RegionTail(m: Memory, a: Word, len: Word, c: Word)
    requires RegionMapped(m, a, len) && c <= len
    ensures RegionMapped(m, At(a, c), len - c)
  {
    forall i | 0 <= i < len - c ensures At(At(a, c), i) in m.bytes {
      AtAt(a, c, i);
      assert At(a, c + i) in m.bytes;
    }
  }

  // The one way to miss: an unaligned range that ends within its first aligned
  // word, when the next word is not mapped, though no byte of it was asked for.
  predicate HeadOverhangs(m: Memory, a: Word, len: Word) {
    a % 8 != 0 && len <= 8 - a % 8 && At(a, 8 - a % 8) !in m.bytes
  }

  // Bytes of one aligned word are mapped together.
  lemma {:induction false} RestOfWord(m: Memory, p: nat, a: Word, i: nat)
    requires PageSize(p) && Paged(m, p) && a in m.bytes && a % 8 + i < 8
    ensures At(a, i) in m.bytes
  {
    hide PageSize, PageOf, Base.At, Wrap;
    WithinWord(a, i);
    var h := a % 8;
    var b: Word, c: Word := a - h, a + i;
    SamePage(b, h, p);
    SamePage(b, h + i, p);
    assert PageOf(a, p) == PageOf(c, p);
  }

  lemma {:induction false} WithinWord(a: Word, i: nat)
    requires a % 8 + i < 8
    ensures a + i < TWO_64 && At(a, i) == a + i
    ensures (a - a % 8) % 8 == 0
  {
  }

  lemma {:induction false} HeadWord(m: Memory, p: nat, a: Word, len: Word)
    requires PageSize(p) && Paged(m, p) && a % 8 != 0 && 0 < len
    requires RegionMapped(m, a, len)
    ensures WordMapped(m, a) <==> !HeadOverhangs(m, a, len)
  {
    hide Paged, PageSize;
    var rem := 8 - a % 8;
    if HeadOverhangs(m, a, len) {
      assert At(a, rem) !in m.bytes;
    } else {
      assert At(a, rem) in m.bytes;
      assert At(a, 0) == a;
      AlignedWordIsWhole(m, p, At(a, rem));
      hide Wrap, Base.At;
      forall i | 0 <= i < 8 ensures At(a, i) in m.bytes {
        if i < rem {
          RestOfWord(m, p, a, i);
        } else {
          AtAt(a, rem, i - rem);
        }
      }
    }
  }

  // A mapped, non-empty region is read whole if and only if its head does not
  // overhang; when it does, nothing at all is read and the result is -1.
  lemma {:induction false} MappedRegionIsReadWhole(m: Memory, p: nat, a: Word, len: Word)
    requires PageSize(p) && Paged(m, p) && m.faults == map[]
    requires 0 < len && RegionMapped(m, a, len)
    ensures |Read(m, a, len).data| == len && Read(m, a, len).rc == AsSsize(len)
            <==> !HeadOverhangs(m, a, len)
    ensures HeadOverhangs(m, a, len) ==> Read(m, a, len) == Outcome([], -1, [a])
  {
    PeekIsExact(m, a);
    ReadEnds(m, a, len);
    if a % 8 == 0 {
      AlignedReadIsWhole(m, p, a, len, 0);
    } else {
      HeadWord(m, p, a, len);
      var c := Chunk(a, len);
      if !HeadOverhangs(m, a, len) && c < len {
        RegionTail(m, a, len, c);
        AlignedReadIsWhole(m, p, At(a, c), len - c, c);
      }
    }
  }

  // The bytes a complete read must deliver.
  ghost function Region(m: Memory, a: Word, len: Word): seq<byte>
    requires RegionMapped(m, a, len)
  {
    seq(len, i requires 0 <= i < len => m.bytes[At(a, i)])
  }

  lemma {:induction false} CompleteReadIsTheRegion(m: Memory, a: Word, len: Word)
    requires |Read(m, a, len).data| == len
    ensures RegionMapped(m, a, len) && Read(m, a, len).data == Region(m, a, len)
  {
    ReadShowsMemory(m, a, len);
    var data := Read(m, a, len).data;
    forall i | 0 <= i < len ensures At(a, i) in m.bytes && data[i] == m.bytes[At(a, i)] {
    }
  }
}
