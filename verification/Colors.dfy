// The colour table: names, and the escape sequences that switch a colour on and
// back to the default.

module Colors {
  import opened Base
  import opened Marks

  datatype ColorEsc = ColorEsc(name: string, escStart: seq<byte>, escEnd: seq<byte>)

  const ESC: byte := 27

  // ESC [ 0 ; 3 c m, or with 1 for the bright table.
  function EscStart(bright: bool, color: nat): seq<byte>
    requires color < 8
  {
    [ESC, 91, if bright then 49 else 48, 59, 51, 48 + color, 109]
  }

  // ESC [ m
  const ESC_END: seq<byte> := [ESC, 91, 109]

  const NAMES: seq<string> :=
    ["black", "red", "green", "yellow", "blue", "magenta", "cyan", "white"]

  const NORMAL_COLORS: seq<ColorEsc> := ColorTable(false)
  const BRIGHT_COLORS: seq<ColorEsc> := ColorTable(true)

  function ColorTable(bright: bool): seq<ColorEsc> {
    seq(8, i requires 0 <= i < 8 => ColorEsc(NAMES[i], EscStart(bright, i), ESC_END))
  }

  const BRIGHT := "bright-"

  // The name by which a user asks for a colour.
  function ColorName(bright: bool, color: nat): string
    requires color < 8
  {
    (if bright then BRIGHT else "") + NAMES[color]
  }

  lemma {:induction false} PlainNamesAreNotBright(color: nat)
    requires color < 8
    ensures !(BRIGHT <= NAMES[color])
  {
    if color == 5 {
      assert NAMES[5][0] == 'm';
    }
  }

  lemma {:induction false} NamesDiffer(i: nat, j: nat)
    requires i < 8 && j < 8 && NAMES[i] == NAMES[j]
    ensures i == j
  {
    assert forall k :: 0 <= k < 8 ==> |NAMES[k]| >= 3;
    var a, b := NAMES[i], NAMES[j];
    assert a[0] == b[0] && a[2] == b[2] && |a| == |b|;
  }

  // The names, spelled out.
  lemma {:induction false} LiteralNames()
    ensures forall i :: 0 <= i < 8 ==>
              var plain := ["black", "red", "green", "yellow", "blue", "magenta", "cyan", "white"][i];
              && ColorName(false, i) == plain == NAMES[i]
              && ColorName(true, i) == "bright-" + plain
  {
    assert NAMES == ["black", "red", "green", "yellow", "blue", "magenta", "cyan", "white"];
    forall i | 0 <= i < 8 ensures ColorName(false, i) == NAMES[i] {
      assert "" + NAMES[i] == NAMES[i];
    }
  }

  // The names are those of eight colours, plain and bright; a known name gets the
  // sequences of its own colour, and any other gets nothing.
  method LookupColor(arg: Option<string>) returns (ent: Option<ColorEsc>)
    ensures forall bright: bool, color: nat ::
              color < 8 && arg == Some(ColorName(bright, color))
              ==> ent == Some(ColorEsc(NAMES[color], EscStart(bright, color), ESC_END))
    ensures ent.Some? ==> exists bright: bool, color: nat ::
              color < 8 && arg == Some(ColorName(bright, color))
    ensures forall i :: 0 <= i < 8
              && arg == Some(["black", "red", "green", "yellow", "blue", "magenta", "cyan", "white"][i])
              ==> ent == Some(ColorEsc(arg.value, [27, 91, 48, 59, 51, 48 + i, 109], [27, 91, 109]))
    ensures forall i :: 0 <= i < 8
              && arg == Some("bright-" + ["black", "red", "green", "yellow", "blue", "magenta", "cyan", "white"][i])
              ==> ent == Some(ColorEsc(arg.value[7..], [27, 91, 49, 59, 51, 48 + i, 109], [27, 91, 109]))
    ensures ent.Some? ==>
              exists i :: 0 <= i < 8
                && (arg == Some(["black", "red", "green", "yellow", "blue", "magenta", "cyan", "white"][i])
                    || arg == Some("bright-"
                                   + ["black", "red", "green", "yellow", "blue", "magenta", "cyan", "white"][i]))
  {
    LiteralNames();
    if arg == None {
      return None;
    }
    var name := arg.value;
    var colorTable;
    ghost var bright := BRIGHT <= name;
    if BRIGHT <= name {
      name := name[7..];
      assert arg.value == BRIGHT + name;
      colorTable := BRIGHT_COLORS;
    } else {
      colorTable := NORMAL_COLORS;
    }
    assert arg.value == (if bright then BRIGHT else "") + name;

    forall b: bool, color: nat | color < 8 && arg == Some(ColorName(b, color))
      ensures b == bright && name == NAMES[color]
    {
      PlainNamesAreNotBright(color);
      if b {
        assert ColorName(b, color)[7..] == NAMES[color];
      } else {
        assert ColorName(b, color) == NAMES[color];
      }
    }

    var i := 0;
    while i < |colorTable|
      invariant 0 <= i <= 8 && colorTable == ColorTable(bright)
      invariant forall k :: 0 <= k < i ==> NAMES[k] != name
    {
      var e := colorTable[i];
      if name == e.name {
        forall color: nat | color < 8 && NAMES[color] == name ensures color == i {
          NamesDiffer(color, i);
        }
        assert arg == Some(ColorName(bright, i));
        return Some(e);
      }
      i := i + 1;
    }
    return None;
  }

  // --color: the colour goes on fd 2, and fd 1 keeps the marks it has.
  method OptColor(marker: Marker, name: string) returns (ok: bool)
    modifies marker
    ensures marker.curFd == old(marker.curFd)
    ensures !ok ==> marker.Marks() == old(marker.Marks())
    ensures forall bright: bool, color: nat ::
              color < 8 && name == ColorName(bright, color)
              ==> ok && marker.Marks() == old(marker.Marks()).(start2 := Some(EscStart(bright, color)),
                                                               end2 := Some(ESC_END))
    ensures ok ==> exists bright: bool, color: nat :: color < 8 && name == ColorName(bright, color)
  {
    var ent := LookupColor(Some(name));
    if ent == None {
      return false;
    }
    ok := marker.SetMark(2, ent.value.escStart, ent.value.escEnd);
  }
}
