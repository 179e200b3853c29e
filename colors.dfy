/** The axis palette (generate_color): a base colour picked by the axis id,
    whose channels are pushed up by 10·id or down by 20·id in 8-bit
    arithmetic, packed as an opaque 32-bit colour. */
module Colors {
  import opened CText

  /** base_colors_: six colours and six "multipliers". */
  const BASE_COLORS: seq<nat> := [
    0x0000ee, 0x00ee00, 0xee0000, 0x00eeee, 0xeeee00, 0xee00ee,
    0xbbccee, 0xbbeecc, 0xccbbee, 0xcceebb, 0xeebbcc, 0xeeccbb]

  /** The channels of a packed colour, read as color >> 16 & 0xff and so on. */
  function Red(c: nat): nat { c / 0x1_0000 % 0x100 }
  function Green(c: nat): nat { c / 0x100 % 0x100 }
  function Blue(c: nat): nat { c % 0x100 }
  function Alpha(c: nat): nat { c / 0x100_0000 % 0x100 }

  /** 0xff000000 | (r << 16) | (g << 8) | b for channels held in uint8_t:
      the bit ranges are disjoint, so the or is a sum. */
  function Pack(r: int, g: int, b: int): nat {
    0xff00_0000 + U8(r) * 0x1_0000 + U8(g) * 0x100 + U8(b)
  }

  /** A packed colour is an opaque 32-bit value whose channels are the
      uint8_t values it was packed from. */
  lemma PackChannels(r: int, g: int, b: int)
    ensures Pack(r, g, b) < TWO_32 && Alpha(Pack(r, g, b)) == 0xff
    ensures Red(Pack(r, g, b)) == U8(r) && Green(Pack(r, g, b)) == U8(g) && Blue(Pack(r, g, b)) == U8(b)
  {
    var c := Pack(r, g, b);
    var lo := U8(g) * 0x100 + U8(b);
    assert c == (0xff00 + U8(r)) * 0x1_0000 + lo && lo < 0x1_0000;
    assert c / 0x1_0000 == 0xff00 + U8(r);
    assert c / 0x100 == (0xff_0000 + U8(r) * 0x100 + U8(g));
    assert c / 0x100_0000 == 0xff;
  }

  /** The colour of the GPU axis: the grey (.25, .25, .25, 1), which packs
      to 0x40 in each channel. */
  const GPU_COLOR: nat := Pack(0x40, 0x40, 0x40)

  /** generate_color for a uint16_t id. The id is reduced modulo 5 before the
      branches are chosen, so the branches for 5, 6, 7 and the final else are
      kept as written but never taken. */
  function GenerateColor(id: nat): nat
    requires id < TWO_16
  {
    var color := BASE_COLORS[id % 11];
    var r := Red(color);
    var g := Green(color);
    var b := Blue(color);
    var inc := U8(id * 10);
    var dec := U8(id * 20);
    var k := id % 5;
    if k == 0 then Pack(r + inc, g + inc, b - dec)
    else if k == 1 then Pack(r + inc, g - dec, b + inc)
    else if k == 2 then Pack(r - dec, g + inc, b + inc)
    else if k == 3 then Pack(r + inc, g - dec, b - dec)
    else if k == 4 then Pack(r - dec, g - dec, b + inc)
    else if k == 5 then Pack(r - dec, g + inc, b - dec)
    else if k == 6 then Pack(r - dec, g, b)
    else if k == 7 then Pack(r, g - dec, b)
    else Pack(r - dec, g + inc, b - dec)
  }

  /** The five raise/lower patterns, one per id modulo 5, as (red, green,
      blue): true raises a channel by 10·id, false lowers it by 20·id. */
  const PATTERNS: seq<(bool, bool, bool)> := [
    (true, true, false), (true, false, true), (false, true, true),
    (true, false, false), (false, false, true)]

  /** One channel after its raise or lower, wrapped to 8 bits. */
  function Shifted(ch: nat, raise: bool, id: nat): int {
    if raise then (ch + 10 * id) % 0x100 else (ch - 20 * id) % 0x100
  }

  lemma WrapSum(a: int, b: int)
    ensures (a + b % 0x100) % 0x100 == (a + b) % 0x100
    ensures (a - b % 0x100) % 0x100 == (a - b) % 0x100
  {
    var q := b / 0x100;
    assert b == q * 0x100 + b % 0x100;
    assert a + b % 0x100 == (a + b) - q * 0x100;
    assert a - b % 0x100 == (a - b) + q * 0x100;
  }

  /** A channel moved as generate_color moves it, before the uint8_t store. */
  function Moved(ch: nat, raise: bool, id: nat): int {
    if raise then ch + U8(id * 10) else ch - U8(id * 20)
  }

  lemma MovedChannel(ch: nat, raise: bool, id: nat)
    ensures U8(Moved(ch, raise, id)) == Shifted(ch, raise, id)
  {
    WrapSum(ch, id * 10);
    WrapSum(ch, id * 20);
  }

  /** The branch generate_color takes is the pattern for id % 5. */
  lemma GenerateColorBranch(id: nat)
    requires id < TWO_16
    ensures var base := BASE_COLORS[id % 11];
      var pat := PATTERNS[id % 5];
      GenerateColor(id) == Pack(Moved(Red(base), pat.0, id), Moved(Green(base), pat.1, id), Moved(Blue(base), pat.2, id))
  {
    var k := id % 5;
    if k == 0 {
    } else if k == 1 {
    } else if k == 2 {
    } else if k == 3 {
    } else {
      assert k == 4;
    }
  }

  /** generate_color is opaque, takes base colour id % 11 (the twelfth entry
      of the palette is never used), and moves each of its channels by the
      pattern for id % 5 with 8-bit wrap-around. */
  lemma GenerateColorSpec(id: nat)
    requires id < TWO_16
    ensures var c := GenerateColor(id);
      var base := BASE_COLORS[id % 11];
      var pat := PATTERNS[id % 5];
      && c < TWO_32 && Alpha(c) == 0xff
      && Red(c) == Shifted(Red(base), pat.0, id)
      && Green(c) == Shifted(Green(base), pat.1, id)
      && Blue(c) == Shifted(Blue(base), pat.2, id)
  {
    var base := BASE_COLORS[id % 11];
    var pat := PATTERNS[id % 5];
    GenerateColorBranch(id);
    MovedChannel(Red(base), pat.0, id);
    MovedChannel(Green(base), pat.1, id);
    MovedChannel(Blue(base), pat.2, id);
    PackChannels(Moved(Red(base), pat.0, id), Moved(Green(base), pat.1, id), Moved(Blue(base), pat.2, id));
  }

  /** Axis 0 keeps pure blue (every move is by 0): 0xff0000ee; axis 1 gets
      green (0x00ee00) moved by (+10, -20, +10): 0xff0ada0a. */
  lemma FirstColors()
    ensures GenerateColor(0) == 0xff00_00ee
    ensures GenerateColor(1) == 0xff0a_da0a
  {
  }
}
