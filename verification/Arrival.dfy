// One traced write: the bytes the tracer sends to the terminal against the bytes
// the kernel would have written there, and exactly when they are the same.

module Arrival {
  import opened Base
  import opened RemoteMemory
  import opened RemoteRead
  import opened RemoteReadFacts
  import opened Marks
  import opened Runs
  import opened Tracee
  import opened Tracer

  // ---- what is sent, and what is due

  function Sent(cfg: Config, r: Regs, m: Memory, junk: seq<byte>): seq<byte> {
    var data := Read(m, r.arg2, r.arg3).data;
    if Fd(r) == 2 && cfg.copying then Filled(junk, data, r.arg3) else data
  }

  function Due(r: Regs, m: Memory): seq<byte> {
    Available(m, r.arg2, r.arg3)
  }

  // Empty unless the event enters a traced write.
  function SentBy(cfg: Config, e: Event): seq<Write> {
    if e.op.WriteEntry? && Traced(Fd(e.op.regs))
    then [Write(Fd(e.op.regs), Sent(cfg, e.op.regs, e.op.mem, e.junk))]
    else []
  }

  function DueBy(e: Event): seq<Write> {
    if e.op.WriteEntry? && Traced(Fd(e.op.regs))
    then [Write(Fd(e.op.regs), Due(e.op.regs, e.op.mem))]
    else []
  }

  function SentAll(cfg: Config, es: seq<Event>): seq<Write> {
    if es == [] then [] else SentBy(cfg, es[0]) + SentAll(cfg, es[1..])
  }

  function DueAll(es: seq<Event>): seq<Write> {
    if es == [] then [] else DueBy(es[0]) + DueAll(es[1..])
  }

  // ---- what the kernel can reach of a buffer

  // Bytes that memory shows from `a` on are a prefix of what is available there.
  lemma {:induction false} ShownIsAvailable(m: Memory, a: Word, data: seq<byte>, len: Word)
    requires |data| <= len && Shows(m, a, data)
    ensures data <= Available(m, a, len)
    decreases |data|
  {
    if data != [] {
      assert At(a, 0) == a;
      forall i | 0 <= i < |data[1..]|
        ensures At(At(a, 1), i) in m.bytes && data[1..][i] == m.bytes[At(At(a, 1), i)]
      {
        AtAt(a, 1, i);
        assert data[1..][i] == data[i + 1];
      }
      ShownIsAvailable(m, At(a, 1), data[1..], len - 1);
      assert data == [data[0]] + data[1..];
    }
  }

  lemma {:induction false} AvailableShows(m: Memory, a: Word, len: Word)
    ensures Shows(m, a, Available(m, a, len))
    decreases len
  {
    if len != 0 && a in m.bytes {
      AvailableShows(m, At(a, 1), len - 1);
      assert At(a, 0) == a;
      ShowsConcat(m, a, 1, [m.bytes[a]], Available(m, At(a, 1), len - 1));
    }
  }

  // A buffer is available whole exactly when all of it is mapped.
  lemma {:induction false} WholeIsMapped(m: Memory, a: Word, len: Word)
    ensures |Available(m, a, len)| == len <==> RegionMapped(m, a, len)
  {
    AvailableShows(m, a, len);
    if RegionMapped(m, a, len) {
      assert Shows(m, a, Region(m, a, len));
      ShownIsAvailable(m, a, Region(m, a, len), len);
      AvailableLength(m, a, len);
    }
  }

  // The tracer never shows more than the kernel would, nor anything else.
  lemma {:induction false} ReadIsAvailable(m: Memory, a: Word, len: Word)
    ensures Read(m, a, len).data <= Available(m, a, len)
    ensures |Read(m, a, len).data| <= len && |Available(m, a, len)| <= len
  {
    ReadShowsMemory(m, a, len);
    ShownIsAvailable(m, a, Read(m, a, len).data, len);
    AvailableLength(m, a, len);
  }

  // ---- when one write arrives

  // The tracer reads as far as the kernel would; or it sends the whole buffer of a
  // copied write, and the old content of its own buffer happens to stand in for
  // what it could not read.
  predicate Arrives(cfg: Config, r: Regs, m: Memory, junk: seq<byte>) {
    var got, due := |Read(m, r.arg2, r.arg3).data|, Due(r, m);
    if Fd(r) == 2 && cfg.copying
    then |due| == r.arg3 && forall i :: got <= i < |due| ==> due[i] == JunkAt(junk, i)
    else got == |due|
  }

  lemma {:induction false} SentIsDue(cfg: Config, r: Regs, m: Memory, junk: seq<byte>)
    ensures Sent(cfg, r, m, junk) == Due(r, m) <==> Arrives(cfg, r, m, junk)
  {
    ReadIsAvailable(m, r.arg2, r.arg3);
    hide Read, Available;
    var data, due, sent := Read(m, r.arg2, r.arg3).data, Due(r, m), Sent(cfg, r, m, junk);
    if Fd(r) == 2 && cfg.copying {
      if Arrives(cfg, r, m, junk) {
        assert |sent| == |due| && forall i :: 0 <= i < |due| ==> sent[i] == due[i];
      } else if |due| == r.arg3 {
        var i :| |data| <= i < |due| && due[i] != JunkAt(junk, i);
        assert sent[i] != due[i];
      } else {
        assert |sent| != |due|;
      }
    }
  }

  predicate EventArrives(cfg: Config, e: Event) {
    e.op.WriteEntry? && Traced(Fd(e.op.regs)) ==> Arrives(cfg, e.op.regs, e.op.mem, e.junk)
  }

  predicate AllArrive(cfg: Config, es: seq<Event>) {
    forall i :: 0 <= i < |es| ==> EventArrives(cfg, es[i])
  }

  lemma {:induction false} AllArriveCons(cfg: Config, es: seq<Event>)
    requires es != []
    ensures AllArrive(cfg, es) <==> EventArrives(cfg, es[0]) && AllArrive(cfg, es[1..])
  {
    hide EventArrives;
    assert es == [es[0]] + es[1..];
  }

  lemma {:induction false} SplitEqual<T>(a: seq<T>, b: seq<T>, c: seq<T>, d: seq<T>)
    requires |a| == |c|
    ensures a + b == c + d <==> a == c && b == d
  {
    if a + b == c + d {
      assert a == (a + b)[..|a|] && b == (a + b)[|a|..];
      assert c == (c + d)[..|c|] && d == (c + d)[|c|..];
    }
  }

  lemma {:induction false} EventSentIsDue(cfg: Config, e: Event)
    ensures |SentBy(cfg, e)| == |DueBy(e)|
    ensures SentBy(cfg, e) == DueBy(e) <==> EventArrives(cfg, e)
  {
    hide Sent, Due, Arrives;
    if e.op.WriteEntry? {
      SentIsDue(cfg, e.op.regs, e.op.mem, e.junk);
    }
  }

  // What is sent over a whole run is what is due if and only if every write
  // arrives.
  lemma {:induction false} AllSentIsDue(cfg: Config, es: seq<Event>)
    ensures |SentAll(cfg, es)| == |DueAll(es)|
    ensures SentAll(cfg, es) == DueAll(es) <==> AllArrive(cfg, es)
  {
    if es != [] {
      hide SentBy, DueBy, EventArrives, AllArrive;
      EventSentIsDue(cfg, es[0]);
      AllSentIsDue(cfg, es[1..]);
      AllArriveCons(cfg, es);
      SplitEqual(SentBy(cfg, es[0]), SentAll(cfg, es[1..]), DueBy(es[0]), DueAll(es[1..]));
    } else {
      assert AllArrive(cfg, es);
    }
  }

  // ---- in paged memory

  // The word at the first, unaligned byte reaches into a page that is not mapped.
  predicate Overhangs(m: Memory, a: Word) {
    a % 8 != 0 && a in m.bytes && At(a, 8 - a % 8) !in m.bytes
  }

  lemma {:induction false} OverhangsInRegion(m: Memory, a: Word, len: Word)
    requires 0 < len && RegionMapped(m, a, len)
    ensures Overhangs(m, a) <==> HeadOverhangs(m, a, len)
  {
    assert At(a, 0) == a;
    if a % 8 != 0 && 8 - a % 8 < len {
      assert At(a, 8 - a % 8) in m.bytes;
    }
  }

  lemma {:induction false} UnalignedWord(m: Memory, p: nat, a: Word)
    requires PageSize(p) && Paged(m, p) && a % 8 != 0 && a in m.bytes
    ensures WordMapped(m, a) <==> !Overhangs(m, a)
  {
    assert At(a, 0) == a;
    assert RegionMapped(m, a, 1);
    OverhangsInRegion(m, a, 1);
    HeadWord(m, p, a, 1);
  }

  // The n bytes at `a`, if they are mapped.
  function Mapping(m: Memory, a: Word, n: nat): seq<byte>
    requires forall i :: 0 <= i < n ==> At(a, i) in m.bytes
  {
    seq(n, i requires 0 <= i < n => m.bytes[At(a, i)])
  }

  lemma {:induction false} MappingCons(m: Memory, a: Word, n: nat)
    requires 0 < n && forall i :: 0 <= i < n ==> At(a, i) in m.bytes
    ensures a in m.bytes && forall i :: 0 <= i < n - 1 ==> At(At(a, 1), i) in m.bytes
    ensures Mapping(m, a, n) == [m.bytes[a]] + Mapping(m, At(a, 1), n - 1)
  {
    assert At(a, 0) == a;
    forall i | 0 <= i < n - 1 ensures At(At(a, 1), i) == At(a, i + 1) && At(a, i + 1) in m.bytes {
      AtAt(a, 1, i);
    }
  }

  // What is available after mapped bytes.
  lemma {:induction false} AvailableSplit(m: Memory, a: Word, c: nat, len: Word)
    requires c <= len && forall i :: 0 <= i < c ==> At(a, i) in m.bytes
    ensures Available(m, a, len) == Mapping(m, a, c) + Available(m, At(a, c), len - c)
    decreases c
  {
    if c == 0 {
      assert At(a, 0) == a;
    } else {
      MappingCons(m, a, c);
      var head := [m.bytes[a]];
      assert Available(m, a, len) == head + Available(m, At(a, 1), len - 1);
      hide Mapping, Available;
      AvailableSplit(m, At(a, 1), c - 1, len - 1);
      AtAt(a, 1, c - 1);
      ConcatAssoc(head, Mapping(m, At(a, 1), c - 1), Available(m, At(a, c), len - c));
    }
  }

  // A word that can be peeked at contributes what the kernel would take from it.
  lemma {:induction false} MappedChunk(m: Memory, a: Word, len: Word, done: Word)
    requires 0 < len && done + len < TWO_64 && m.faults == map[] && WordMapped(m, a)
    requires var c := Chunk(a, len);
             ReadFrom(m, At(a, c), len - c, done + c).data == Available(m, At(a, c), len - c)
    ensures ReadFrom(m, a, len, done).data == Available(m, a, len)
  {
    var c := Chunk(a, len);
    PeekIsExact(m, a);
    ReadFromStep(m, a, len, done);
    hide ReadFrom, Available, RemoteMemory.Peek;
    AvailableSplit(m, a, c, len);
    assert WordBytes(m, a)[..c] == Mapping(m, a, c);
  }

  lemma {:induction false} UnmappedChunk(m: Memory, a: Word, len: Word, done: Word)
    requires 0 < len && done + len < TWO_64 && !WordMapped(m, a)
    ensures ReadFrom(m, a, len, done).data == []
  {
    PeekIsExact(m, a);
  }

  lemma {:induction false} AlignedReadIsAvailable(m: Memory, p: nat, a: Word, len: Word, done: Word)
    requires PageSize(p) && Paged(m, p) && m.faults == map[]
    requires a % 8 == 0 && done + len < TWO_64
    ensures ReadFrom(m, a, len, done).data == Available(m, a, len)
    decreases len
  {
    if len != 0 {
      assert At(a, 0) == a;
      if a in m.bytes {
        AlignedWordIsWhole(m, p, a);
        var c := Chunk(a, len);
        if c < len {
          AlignedReadIsAvailable(m, p, At(a, c), len - c, done + c);
        }
        hide WordMapped, Paged;
        MappedChunk(m, a, len, done);
      } else {
        UnmappedChunk(m, a, len, done);
      }
    }
  }

  // The tracer reads everything the kernel would, or nothing, and nothing exactly
  // when the head overhangs.
  lemma {:induction false} PagedRead(m: Memory, p: nat, a: Word, len: Word)
    requires PageSize(p) && Paged(m, p) && m.faults == map[] && 0 < len
    ensures Read(m, a, len).data == if Overhangs(m, a) then [] else Available(m, a, len)
    ensures Overhangs(m, a) ==> Available(m, a, len) != []
  {
    assert At(a, 0) == a;
    if a % 8 == 0 {
      AlignedReadIsAvailable(m, p, a, len, 0);
    } else if a in m.bytes {
      UnalignedWord(m, p, a);
      if Overhangs(m, a) {
        UnmappedChunk(m, a, len, 0);
      } else {
        var c := Chunk(a, len);
        if c < len {
          AlignedReadIsAvailable(m, p, At(a, c), len - c, c);
        }
        MappedChunk(m, a, len, 0);
      }
    } else {
      UnmappedChunk(m, a, len, 0);
    }
  }

  // The guard a caller can check: no head overhangs; and a copied write is mapped
  // whole, and if its head overhangs the tracer's buffer must already hold it.
  ghost predicate Deliverable(cfg: Config, r: Regs, m: Memory, junk: seq<byte>) {
    r.arg3 == 0 ||
    if Fd(r) == 2 && cfg.copying
    then && RegionMapped(m, r.arg2, r.arg3)
         && (Overhangs(m, r.arg2) ==> forall i :: 0 <= i < r.arg3 ==> m.bytes[At(r.arg2, i)] == JunkAt(junk, i))
    else !Overhangs(m, r.arg2)
  }

  lemma {:induction false} ArrivesInPages(cfg: Config, r: Regs, m: Memory, junk: seq<byte>, p: nat)
    requires PageSize(p) && Paged(m, p) && m.faults == map[]
    ensures Arrives(cfg, r, m, junk) <==> Deliverable(cfg, r, m, junk)
  {
    var a, len := r.arg2, r.arg3;
    ReadIsAvailable(m, a, len);
    WholeIsMapped(m, a, len);
    if len != 0 {
      PagedRead(m, p, a, len);
      AvailableShows(m, a, len);
      hide Read, Available, RegionMapped, Overhangs;
      if Fd(r) == 2 && cfg.copying && RegionMapped(m, a, len) && Overhangs(m, a) {
        var due := Due(r, m);
        assert forall i :: 0 <= i < len ==> due[i] == m.bytes[At(a, i)];
      }
    }
  }

  // ---- what the tracee is told

  // With the terminal taking everything, a write returns its length exactly when
  // its buffer is mapped; or the error for a buffer that is not mapped at all,
  // read as a length, happens to be the one asked for.
  lemma {:induction false} DirectResult(r: Regs, m: Memory)
    ensures Written(r, m, Takes(r.arg3)) == Due(r, m)
    ensures Result(r, m, Takes(r.arg3)) == r.arg3
            <==> RegionMapped(m, r.arg2, r.arg3) || (r.arg2 !in m.bytes && r.arg3 == TWO_64 - EFAULT)
  {
    WholeIsMapped(m, r.arg2, r.arg3);
    AvailableLength(m, r.arg2, r.arg3);
    AvailableShows(m, r.arg2, r.arg3);
    assert At(r.arg2, 0) == r.arg2;
  }
}
