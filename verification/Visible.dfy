// fshow_str: a string in graphic characters only.

module Visible {
  import opened Base
  import opened Stdio
  import opened Marks

  const BACKSLASH: byte := 92
  const LETTER_X: byte := 120

  // isprint() in the C locale.
  predicate Printable(c: byte) {
    32 <= c <= 126
  }

  // The characters of a C string, each positive as a signed char.
  predicate Ascii(s: seq<byte>) {
    forall i :: 0 <= i < |s| ==> 0 < s[i] < 128
  }

  function HexDigit(d: nat): byte
    requires d < 16
  {
    if d < 10 then 48 + d else 87 + d
  }

  // A character as itself, or as \xHH.
  function ShownChar(c: byte): (s: seq<byte>)
    ensures |s| == if Printable(c) then 1 else 4
  {
    if Printable(c) then [c] else [BACKSLASH, LETTER_X, HexDigit(c / 16), HexDigit(c % 16)]
  }

  function Escaped(s: seq<byte>): seq<byte> {
    if s == [] then [] else ShownChar(s[0]) + Escaped(s[1..])
  }

  // ---- the code

  // The buffer holds a C string of `len` characters, unless it is too small.
  method ShowCharR(buf: array<byte>, chr: byte) returns (aborted: bool, len: nat)
    requires chr < 128
    modifies buf
    ensures aborted <==> buf.Length < 5
    ensures !aborted ==> len < buf.Length && buf[..len] == ShownChar(chr) && buf[len] == 0
  {
    len := 0;
    if !(buf.Length >= 5) {
      return true, 0;
    }
    if Printable(chr) {
      buf[len] := chr;
      len := len + 1;
      buf[len] := 0;
    } else {
      buf[0], buf[1] := BACKSLASH, LETTER_X;
      buf[2], buf[3] := HexDigit(chr / 16), HexDigit(chr % 16);
      buf[4] := 0;
      len := 4;
    }
    return false, len;
  }

  method Fputs(buf: array<byte>, f: Stream)
    requires exists i :: 0 <= i < buf.Length && buf[i] == 0
    modifies f
    ensures f.Logical() == old(f.Logical()) + buf[..First(buf[..], 0)]
  {
    f.Fwrite(buf[..First(buf[..], 0)]);
  }

  method FshowStr(f: Stream, str: seq<byte>)
    requires Ascii(str)
    modifies f
    ensures f.Logical() == old(f.Logical()) + Escaped(str)
  {
    var dbuf := new byte[8];
    var s := 0;
    ghost var done: seq<byte> := [];
    while CharAt(str, s) != 0
      invariant 0 <= s <= |str|
      invariant done + Escaped(str[s..]) == Escaped(str)
      invariant f.Logical() == old(f.Logical()) + done
      decreases |str| - s
    {
      var chr := str[s];
      var _, len := ShowCharR(dbuf, chr);
      ShownHasNoNul(chr);
      assert dbuf[len] == 0;
      FirstIsFirst(dbuf[..], 0, len);
      Fputs(dbuf, f);
      ConcatAssoc(done, ShownChar(chr), Escaped(str[s + 1..]));
      ConcatAssoc(old(f.Logical()), done, ShownChar(chr));
      assert str[s..][1..] == str[s + 1..];
      done := done + ShownChar(chr);
      s := s + 1;
    }
  }

  lemma {:induction false} ShownHasNoNul(c: byte)
    ensures forall i :: 0 <= i < |ShownChar(c)| ==> ShownChar(c)[i] != 0
  {
  }

  // ---- what can be relied on

  // What one character becomes, in numbers: itself from space to tilde, and else a
  // backslash, an x and two lower-case hexadecimal digits.
  lemma {:induction false} ShownCharIs(c: byte)
    ensures 32 <= c <= 126 ==> ShownChar(c) == [c]
    ensures c < 32 || 126 < c ==>
              ShownChar(c) == [92, 120, "0123456789abcdef"[c / 16] as int, "0123456789abcdef"[c % 16] as int]
  {
    HexDigitIs(c / 16);
    HexDigitIs(c % 16);
  }

  lemma {:induction false} HexDigitIs(d: nat)
    requires d < 16
    ensures HexDigit(d) == "0123456789abcdef"[d] as int
  {
  }

  // Everything shown is printable, and there is one to four times as much of it.
  lemma {:induction false} EscapedIsPrintable(s: seq<byte>)
    ensures forall i :: 0 <= i < |Escaped(s)| ==> 32 <= Escaped(s)[i] <= 126
    ensures |s| <= |Escaped(s)| <= 4 * |s|
  {
    if s != [] {
      EscapedIsPrintable(s[1..]);
    }
  }

  function HexValue(c: byte): Option<nat> {
    if 48 <= c <= 57 then Some(c - 48)
    else if 97 <= c <= 102 then Some(c - 87)
    else None
  }

  // The code of the escape at the front of s.
  function EscapeCode(s: seq<byte>): Option<byte> {
    if |s| >= 4 && s[0] == BACKSLASH && s[1] == LETTER_X && HexValue(s[2]).Some? && HexValue(s[3]).Some? then
      var v := 16 * HexValue(s[2]).value + HexValue(s[3]).value;
      if 0 < v < 128 && !Printable(v) then Some(v) else None
    else None
  }

  function Unescaped(s: seq<byte>): seq<byte>
    decreases |s|
  {
    if s == [] then []
    else if EscapeCode(s).Some? then [EscapeCode(s).value] + Unescaped(s[4..])
    else [s[0]] + Unescaped(s[1..])
  }

  // The string already holds, somewhere, what an unprintable character is turned
  // into.
  predicate Ambiguous(s: seq<byte>) {
    s != [] && (EscapeCode(s).Some? || Ambiguous(s[1..]))
  }

  lemma {:induction false} EscapedChar(c: byte, more: seq<byte>)
    requires 0 < c < 128 && !Printable(c)
    ensures EscapeCode(ShownChar(c) + more) == Some(c)
  {
    assert HexValue(HexDigit(c / 16)) == Some(c / 16);
    assert HexValue(HexDigit(c % 16)) == Some(c % 16);
  }

  lemma {:induction false} EscapedHead(s: seq<byte>)
    requires Ascii(s) && s != []
    ensures Escaped(s) != []
    ensures Printable(s[0]) ==> Escaped(s)[0] == s[0] && Escaped(s)[1..] == Escaped(s[1..])
    ensures !Printable(s[0]) ==> Escaped(s)[0] == BACKSLASH
  {
  }

  // Of a printable character at the front: escaping what follows it neither makes
  // nor breaks an escape there.
  lemma {:induction false} LiteralFront(s: seq<byte>)
    requires Ascii(s) && s != [] && Printable(s[0])
    ensures EscapeCode(Escaped(s)) == EscapeCode(s)
    ensures EscapeCode(s).Some? ==> Escaped(s)[4..] == Escaped(s[4..])
  {
    var e := Escaped(s);
    EscapedHead(s);
    if s[0] == BACKSLASH && |s| > 1 {
      EscapedHead(s[1..]);
      if s[1] == LETTER_X && |s| > 2 {
        EscapedHead(s[2..]);
        assert s[1..][1..] == s[2..];
        assert e[2..] == Escaped(s[2..]);
        if Printable(s[2]) && |s| > 3 {
          EscapedHead(s[3..]);
          assert s[2..][1..] == s[3..] && s[3..][1..] == s[4..];
          assert e[3..] == Escaped(s[3..]);
          if Printable(s[3]) {
            assert e[4..] == Escaped(s[4..]);
          }
        }
      }
    }
  }

  // Reading back the front of an escaped string.
  lemma {:induction false} UnescapeFront(s: seq<byte>)
    requires Ascii(s) && s != []
    ensures EscapeCode(s).Some? ==>
              Unescaped(Escaped(s)) == [EscapeCode(s).value] + Unescaped(Escaped(s[4..]))
    ensures EscapeCode(s).None? ==> Unescaped(Escaped(s)) == [s[0]] + Unescaped(Escaped(s[1..]))
  {
    var e := Escaped(s);
    EscapedHead(s);
    if Printable(s[0]) {
      LiteralFront(s);
    } else {
      EscapedChar(s[0], Escaped(s[1..]));
      assert e[4..] == Escaped(s[1..]);
    }
  }

  // A literal escape is shown like the character it stands for.
  lemma {:induction false} LiteralLooksEscaped(s: seq<byte>, more: seq<byte>)
    requires Ascii(s) && EscapeCode(s).Some?
    ensures Escaped([EscapeCode(s).value] + more) == s[..4] + Escaped(more)
    ensures Escaped(s) == s[..4] + Escaped(s[4..])
  {
    var v := EscapeCode(s).value;
    var h, l := HexValue(s[2]).value, HexValue(s[3]).value;
    DivModUnique(v, 16, h, l);
    assert HexDigit(h) == s[2] && HexDigit(l) == s[3];
    assert ShownChar(v) == s[..4];
    assert ([v] + more)[1..] == more;
    PrintableFront(s[..4], s[4..]);
    assert s == s[..4] + s[4..];
  }

  lemma {:induction false} PrintableFront(p: seq<byte>, more: seq<byte>)
    requires forall i :: 0 <= i < |p| ==> Printable(p[i])
    ensures Escaped(p + more) == p + Escaped(more)
  {
    if p == [] {
      assert p + more == more;
    } else {
      assert (p + more)[1..] == p[1..] + more;
      PrintableFront(p[1..], more);
      assert p == [p[0]] + p[1..];
    }
  }

  lemma {:induction false} EscapedCons(c: byte, more: seq<byte>)
    ensures Escaped([c] + more) == ShownChar(c) + Escaped(more)
  {
    assert ([c] + more)[1..] == more;
  }

  lemma {:induction false} ReadBack(s: seq<byte>)
    requires Ascii(s)
    ensures |Unescaped(Escaped(s))| <= |s|
    ensures Unescaped(Escaped(s)) == s <==> !Ambiguous(s)
    ensures Escaped(Unescaped(Escaped(s))) == Escaped(s)
    decreases |s|
  {
    if s != [] {
      UnescapeFront(s);
      var code := EscapeCode(s);
      hide Escaped, Unescaped, EscapeCode;
      if code.Some? {
        assert |s| >= 4 by { CodeLength(s); }
        ReadBack(s[4..]);
        LiteralLooksEscaped(s, Unescaped(Escaped(s[4..])));
      } else {
        ReadBack(s[1..]);
        EscapedCons(s[0], Unescaped(Escaped(s[1..])));
        EscapedCons(s[0], s[1..]);
        assert s == [s[0]] + s[1..];
        var back := Unescaped(Escaped(s[1..]));
        assert ([s[0]] + back)[1..] == back;
      }
    }
  }

  lemma {:induction false} CodeLength(s: seq<byte>)
    requires EscapeCode(s).Some?
    ensures |s| >= 4 && BACKSLASH in s
  {
  }

  // Escaping can be undone exactly when the string does not itself hold what an
  // unprintable character is turned into; otherwise another string is shown the
  // same.
  lemma {:induction false} EscapingIsFaithful(s: seq<byte>)
    requires Ascii(s)
    ensures !Ambiguous(s) ==> Unescaped(Escaped(s)) == s
    ensures Ambiguous(s) ==> Unescaped(Escaped(s)) != s && Escaped(Unescaped(Escaped(s))) == Escaped(s)
  {
    ReadBack(s);
  }

  // In particular on strings without a backslash, no two of which look alike.
  lemma {:induction false} NoBackslashIsFaithful(s: seq<byte>, t: seq<byte>)
    requires Ascii(s) && Ascii(t) && BACKSLASH !in s && BACKSLASH !in t
    ensures Unescaped(Escaped(s)) == s
    ensures Escaped(s) == Escaped(t) ==> s == t
  {
    PlainIsNotAmbiguous(s);
    PlainIsNotAmbiguous(t);
    ReadBack(s);
    ReadBack(t);
  }

  lemma {:induction false} PlainIsNotAmbiguous(s: seq<byte>)
    requires BACKSLASH !in s
    ensures !Ambiguous(s)
  {
    if s != [] {
      PlainIsNotAmbiguous(s[1..]);
    }
  }

  // The backslash is not escaped: four characters and the one they spell are shown
  // the same.
  lemma {:induction false} BackslashConfuses()
    ensures Escaped([BACKSLASH, LETTER_X, 48, 55]) == Escaped([7])
  {
    EscapedCons(7, []);
    EscapedCons(55, []);
    EscapedCons(48, [55]);
    EscapedCons(LETTER_X, [48, 55]);
    EscapedCons(BACKSLASH, [LETTER_X, 48, 55]);
    assert [48] + [55] == [48, 55];
    assert [LETTER_X] + [48, 55] == [LETTER_X, 48, 55];
    assert [BACKSLASH] + [LETTER_X, 48, 55] == [BACKSLASH, LETTER_X, 48, 55];
    assert [7] + [] == [7] && [55] + [] == [55];
  }
}
