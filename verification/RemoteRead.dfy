// pmem_copy and pmem_fwrite: reading a byte range of the tracee with
// PEEKDATA, an unaligned head, aligned words, and a runt tail.

module RemoteRead {
  import opened Base
  import opened RemoteMemory
  import opened Stdio

  // Bytes obtained, value returned, addresses peeked at in order.
  datatype Outcome = Outcome(data: seq<byte>, rc: int, peeks: seq<Word>)

  // ---- the simple form: from `a`, take what is left of the aligned word

  function Chunk(a: Word, len: Word): (c: nat)
    ensures c <= len && c <= 8
    ensures 0 < len ==> 0 < c
    ensures c < len ==> (a + c) % 8 == 0
  {
    if len < 8 - a % 8 then len else 8 - a % 8
  }

  function Failure(done: Word, errno: nat): int {
    if done != 0 && errno == EIO then AsSsize(done) else -1
  }

  function ReadFrom(m: Memory, a: Word, len: Word, done: Word): Outcome
    requires done + len < TWO_64
    decreases len
  {
    if len == 0 then
      Outcome([], AsSsize(done), [])
    else if Failed(Peek(m, a)) then
      Outcome([], Failure(done, Peek(m, a).errno), [a])
    else
      var c := Chunk(a, len);
      PeekIsExact(m, a);
      var rest := ReadFrom(m, At(a, c), len - c, done + c);
      Outcome(BytesOf(Peek(m, a).word)[..c] + rest.data, rest.rc, [a] + rest.peeks)
  }

  // An empty range at an unaligned address is still peeked at once.
  function Read(m: Memory, a: Word, len: Word): Outcome {
    if len == 0 && a % 8 != 0 then
      Outcome([], if Failed(Peek(m, a)) then -1 else 0, [a])
    else
      ReadFrom(m, a, len, 0)
  }

  // What has been read so far, followed by what the simple form reads next, is
  // the whole read.
  ghost predicate Progress(whole: Outcome, rest: Outcome, got: seq<byte>, peeks: seq<Word>) {
    && whole.data == got + rest.data
    && whole.peeks == peeks + rest.peeks
    && whole.rc == rest.rc
  }

  lemma {:induction false} TakeHead(m: Memory, a: Word, len: Word)
    ensures a % 8 == 0 ==> Progress(Read(m, a, len), ReadFrom(m, a, len, 0), [], [])
    ensures a % 8 != 0 && Failed(Peek(m, a)) ==> Read(m, a, len) == Outcome([], -1, [a])
    ensures a % 8 != 0 && !Failed(Peek(m, a)) ==>
              && -TWO_63 <= Peek(m, a).word < TWO_63
              && var c := Chunk(a, len);
                 Progress(Read(m, a, len), ReadFrom(m, At(a, c), len - c, c), BytesOf(Peek(m, a).word)[..c], [a])
  {
    PeekIsExact(m, a);
  }

  lemma {:induction false} TakeChunk(whole: Outcome, m: Memory, a: Word, len: Word, done: Word,
                                     got: seq<byte>, peeks: seq<Word>)
    requires 0 < len && done + len < TWO_64
    requires Progress(whole, ReadFrom(m, a, len, done), got, peeks)
    ensures Failed(Peek(m, a)) ==>
              whole == Outcome(got, Failure(done, Peek(m, a).errno), peeks + [a])
    ensures !Failed(Peek(m, a)) ==>
              && -TWO_63 <= Peek(m, a).word < TWO_63
              && var c := Chunk(a, len);
                 Progress(whole, ReadFrom(m, At(a, c), len - c, done + c),
                          got + BytesOf(Peek(m, a).word)[..c], peeks + [a])
  {
    PeekIsExact(m, a);
    var rest := ReadFrom(m, a, len, done);
    if !Failed(Peek(m, a)) {
      var c := Chunk(a, len);
      var t := ReadFrom(m, At(a, c), len - c, done + c);
      var w := BytesOf(Peek(m, a).word)[..c];
      assert got + rest.data == got + w + t.data;
      assert peeks + rest.peeks == peeks + [a] + t.peeks;
    }
  }

  lemma {:induction false} TakeWord(whole: Outcome, m: Memory, a: Word, len: Word, done: Word,
                                    got: seq<byte>, peeks: seq<Word>)
    requires 8 <= len && done + len < TWO_64 && a % 8 == 0
    requires Progress(whole, ReadFrom(m, a, len, done), got, peeks)
    ensures Failed(Peek(m, a)) ==>
              whole == Outcome(got, Failure(done, Peek(m, a).errno), peeks + [a])
    ensures !Failed(Peek(m, a)) ==>
              && -TWO_63 <= Peek(m, a).word < TWO_63
              && Progress(whole, ReadFrom(m, At(a, 8), len - 8, done + 8),
                          got + BytesOf(Peek(m, a).word), peeks + [a])
  {
    TakeChunk(whole, m, a, len, done, got, peeks);
    assert Chunk(a, len) == 8;
    if !Failed(Peek(m, a)) {
      assert BytesOf(Peek(m, a).word)[..8] == BytesOf(Peek(m, a).word);
    }
  }

  lemma {:induction false} TakeRunt(whole: Outcome, m: Memory, a: Word, len: Word, done: Word,
                                    got: seq<byte>, peeks: seq<Word>)
    requires 0 < len < 8 && done + len < TWO_64 && a % 8 == 0
    requires Progress(whole, ReadFrom(m, a, len, done), got, peeks)
    ensures Failed(Peek(m, a)) ==>
              whole == Outcome(got, Failure(done, Peek(m, a).errno), peeks + [a])
    ensures !Failed(Peek(m, a)) ==>
              && -TWO_63 <= Peek(m, a).word < TWO_63
              && whole == Outcome(got + BytesOf(Peek(m, a).word)[..len], AsSsize(done + len), peeks + [a])
  {
    TakeChunk(whole, m, a, len, done, got, peeks);
    assert Chunk(a, len) == len;
  }

  lemma {:induction false} TakeNothing(whole: Outcome, m: Memory, a: Word, done: Word,
                                       got: seq<byte>, peeks: seq<Word>)
    requires Progress(whole, ReadFrom(m, a, 0, done), got, peeks)
    ensures whole == Outcome(got, AsSsize(done), peeks)
  {
  }

  // ---- the two readers

  method PtracePeek(m: Memory, a: Word) returns (p: Peeked)
    ensures p == Peek(m, a)
    ensures !Failed(p) ==> -TWO_63 <= p.word < TWO_63
  {
    p := Peek(m, a);
    PeekIsExact(m, a);
  }

  // A buffer whose first bytes are `got` and whose others are untouched.
  ghost predicate Overlaid(buf: seq<byte>, got: seq<byte>, orig: seq<byte>) {
    |got| <= |orig| && buf == got + orig[|got|..]
  }

  lemma {:induction false} OverlayNothing(orig: seq<byte>)
    ensures Overlaid(orig, [], orig)
  {
  }

  method Memcpy(buf: array<byte>, at: nat, data: seq<byte>, ghost got: seq<byte>, ghost orig: seq<byte>)
    requires Overlaid(buf[..], got, orig) && |got| == at && at + |data| <= buf.Length
    modifies buf
    ensures Overlaid(buf[..], got + data, orig)
  {
    forall i | 0 <= i < |data| {
      buf[at + i] := data[i];
    }
    assert forall k :: 0 <= k < at ==> buf[..][k] == (got + orig[at..])[k];
    assert forall k :: at + |data| <= k < buf.Length ==> buf[..][k] == (got + orig[at..])[k];
    assert buf[..] == got + data + orig[|got + data|..];
  }

  method PmemCopy(buf: array<byte>, tracee: Memory, start: Word, size: Word)
    returns (rc: int, ghost peeks: seq<Word>)
    requires size <= buf.Length
    modifies buf
    ensures rc == Read(tracee, start, size).rc
    ensures peeks == Read(tracee, start, size).peeks
    ensures |Read(tracee, start, size).data| <= size
    ensures Overlaid(buf[..], Read(tracee, start, size).data, old(buf[..]))
  {
    hide Overlaid;
    hide Read, ReadFrom, Progress, RemoteMemory.BytesOf, RemoteMemory.Peek, RemoteMemory.Failed, Wrap;
    ghost var whole := Read(tracee, start, size);
    ReadLength(tracee, start, size);
    var raddr: Word, len: Word, at: nat, bytesRead: Word := start, size, 0, 0;
    peeks := [];
    ghost var got: seq<byte> := [];
    ghost var orig := buf[..];
    OverlayNothing(orig);

    TakeHead(tracee, raddr, len);
    var phase := raddr % 8;
    if phase != 0 {
      var remsz := 8 - phase;
      var sz := if len > remsz then remsz else len;
      var data := PtracePeek(tracee, raddr);
      peeks := peeks + [raddr];
      if Failed(data) {
        if bytesRead != 0 && data.errno == EIO {
          return AsSsize(bytesRead), peeks;
        } else {
          return -1, peeks;
        }
      }
      bytesRead := sz;
      var bytes := BytesOf(data.word)[..sz];
      assert got + bytes == bytes && peeks == [raddr];
      Memcpy(buf, at, bytes, got, orig);
      got := got + bytes;
      at, raddr, len := at + sz, At(raddr, sz), len - sz;
    }

    while len >= 8
      invariant at == bytesRead && bytesRead + len == size
      invariant 0 < len ==> raddr % 8 == 0
      invariant Progress(whole, ReadFrom(tracee, raddr, len, bytesRead), got, peeks)
      invariant |got| == bytesRead && Overlaid(buf[..], got, orig)
    {
      TakeWord(whole, tracee, raddr, len, bytesRead, got, peeks);
      var data := PtracePeek(tracee, raddr);
      peeks := peeks + [raddr];
      if Failed(data) {
        if bytesRead != 0 && data.errno == EIO {
          return AsSsize(bytesRead), peeks;
        } else {
          return -1, peeks;
        }
      }
      var bytes := BytesOf(data.word);
      Memcpy(buf, at, bytes, got, orig);
      got := got + bytes;
      at, raddr, len := at + 8, At(raddr, 8), len - 8;
      bytesRead := bytesRead + 8;
    }

    if len > 0 {
      TakeRunt(whole, tracee, raddr, len, bytesRead, got, peeks);
      var data := PtracePeek(tracee, raddr);
      peeks := peeks + [raddr];
      if Failed(data) {
        if bytesRead != 0 && data.errno == EIO {
          return AsSsize(bytesRead), peeks;
        } else {
          return -1, peeks;
        }
      }
      var bytes := BytesOf(data.word)[..len];
      Memcpy(buf, at, bytes, got, orig);
      got := got + bytes;
      bytesRead := bytesRead + len;
    } else {
      TakeNothing(whole, tracee, raddr, bytesRead, got, peeks);
    }
    return AsSsize(bytesRead), peeks;
  }

  method PmemFwrite(f: Stream, tracee: Memory, start: Word, size: Word)
    returns (rc: int, ghost peeks: seq<Word>)
    modifies f
    ensures rc == Read(tracee, start, size).rc
    ensures peeks == Read(tracee, start, size).peeks
    ensures f.Logical() == old(f.Logical()) + Read(tracee, start, size).data
    ensures |Read(tracee, start, size).data| == size && rc != -1 ==> f.pending == []
    ensures old(f.device) <= f.device
  {
    hide Read, ReadFrom, Progress, RemoteMemory.BytesOf, RemoteMemory.Peek, RemoteMemory.Failed, Wrap;
    ghost var whole := Read(tracee, start, size);
    ReadLength(tracee, start, size);
    var raddr: Word, len: Word, bytesRead: Word := start, size, 0;
    peeks := [];
    ghost var got: seq<byte> := [];

    TakeHead(tracee, raddr, len);
    var phase := raddr % 8;
    if phase != 0 {
      var remsz := 8 - phase;
      var sz := if len > remsz then remsz else len;
      var data := PtracePeek(tracee, raddr);
      peeks := peeks + [raddr];
      if Failed(data) {
        if bytesRead != 0 && data.errno == EIO {
          return AsSsize(bytesRead), peeks;
        } else {
          return -1, peeks;
        }
      }
      bytesRead := sz;
      var bytes := BytesOf(data.word)[..sz];
      assert got + bytes == bytes && peeks == [raddr];
      f.Fwrite(bytes);
      ConcatAssoc(old(f.Logical()), got, bytes);
      got := got + bytes;
      raddr, len := At(raddr, sz), len - sz;
    }

    while len >= 8
      invariant bytesRead + len == size
      invariant 0 < len ==> raddr % 8 == 0
      invariant Progress(whole, ReadFrom(tracee, raddr, len, bytesRead), got, peeks)
      invariant |got| == bytesRead && f.Logical() == old(f.Logical()) + got
      invariant old(f.device) <= f.device
    {
      TakeWord(whole, tracee, raddr, len, bytesRead, got, peeks);
      var data := PtracePeek(tracee, raddr);
      peeks := peeks + [raddr];
      if Failed(data) {
        if bytesRead != 0 && data.errno == EIO {
          return AsSsize(bytesRead), peeks;
        } else {
          return -1, peeks;
        }
      }
      var bytes := BytesOf(data.word);
      f.Fwrite(bytes);
      ConcatAssoc(old(f.Logical()), got, bytes);
      got := got + bytes;
      raddr, len := At(raddr, 8), len - 8;
      bytesRead := bytesRead + 8;
    }

    if len > 0 {
      TakeRunt(whole, tracee, raddr, len, bytesRead, got, peeks);
      var data := PtracePeek(tracee, raddr);
      peeks := peeks + [raddr];
      if Failed(data) {
        if bytesRead != 0 && data.errno == EIO {
          return AsSsize(bytesRead), peeks;
        } else {
          return -1, peeks;
        }
      }
      var bytes := BytesOf(data.word)[..len];
      f.Fwrite(bytes);
      ConcatAssoc(old(f.Logical()), got, bytes);
      got := got + bytes;
      bytesRead := bytesRead + len;
    } else {
      TakeNothing(whole, tracee, raddr, bytesRead, got, peeks);
    }
    f.Fflush();
    return AsSsize(bytesRead), peeks;
  }

  // ---- what the simple form means

  lemma {:induction false} ReadFromLength(m: Memory, a: Word, len: Word, done: Word)
    requires done + len < TWO_64
    ensures |ReadFrom(m, a, len, done).data| <= len
    decreases len
  {
    if len != 0 && !Failed(Peek(m, a)) {
      var c := Chunk(a, len);
      PeekIsExact(m, a);
      ReadFromLength(m, At(a, c), len - c, done + c);
    }
  }

  lemma {:induction false} ReadLength(m: Memory, a: Word, len: Word)
    ensures |Read(m, a, len).data| <= len
  {
    if !(len == 0 && a % 8 != 0) {
      ReadFromLength(m, a, len, 0);
    }
  }
}
