/**
 * The colour scheme of utils/plotting.py: each team's colour, a colour
 * derived from the team name's hash for teams without one, and a darker
 * shade for a driver's teammate.
 */
module Colors {

  /** `TEAM_COLORS`: the fixed colour of each team the dashboard knows. */
  const TeamColors: map<string, string> := map[
    "Red Bull Racing" := "#0600EF",
    "Mercedes" := "#00D2BE",
    "Ferrari" := "#DC143C",
    "McLaren" := "#FF8700",
    "Alpine" := "#0090FF",
    "Aston Martin" := "#006F62",
    "Williams" := "#005AFF",
    "AlphaTauri" := "#2B4562",
    "Alfa Romeo" := "#900000",
    "Haas" := "#FFFFFF"
  ]

  predicate IsHexDigit(c: char)
  {
    '0' <= c <= '9' || 'a' <= c <= 'f' || 'A' <= c <= 'F'
  }

  predicate IsLowerHexDigit(c: char)
  {
    '0' <= c <= '9' || 'a' <= c <= 'f'
  }

  /**
   * The value of a hexadecimal digit as `int(_, 16)` reads it, either case.
   * Non-digits read as 0; no colour the dashboard builds contains one.
   */
  function HexValue(c: char): (v: nat)
    ensures v < 16
  {
    if '0' <= c <= '9' then (c - '0') as nat
    else if 'a' <= c <= 'f' then (c - 'a') as nat + 10
    else if 'A' <= c <= 'F' then (c - 'A') as nat + 10
    else 0
  }

  /** The lower-case digit of a value below 16, as the `x` format writes it. */
  function LowerHexDigit(v: nat): (c: char)
    requires v < 16
    ensures IsLowerHexDigit(c) && IsHexDigit(c) && HexValue(c) == v
  {
    if v < 10 then ('0' as int + v) as char else ('a' as int + v - 10) as char
  }

  /** A colour "#rrggbb" with six hexadecimal digits. */
  predicate IsColor(s: string)
  {
    |s| == 7 && s[0] == '#' && forall i :: 1 <= i < 7 ==> IsHexDigit(s[i])
  }

  /** Channel `k` (0 red, 1 green, 2 blue) of a colour: `int(hex_color[2k:2k+2], 16)`. */
  function Channel(s: string, k: nat): (c: nat)
    requires |s| == 7 && k < 3
    ensures c < 256
  {
    HexValue(s[1 + 2 * k]) * 16 + HexValue(s[2 + 2 * k])
  }

  /** `format(b, '02x')` for a byte. */
  function HexByte(b: nat): (s: string)
    requires b < 256
    ensures |s| == 2 && IsLowerHexDigit(s[0]) && IsLowerHexDigit(s[1])
    ensures HexValue(s[0]) * 16 + HexValue(s[1]) == b
  {
    [LowerHexDigit(b / 16), LowerHexDigit(b % 16)]
  }

  /** The colour a channel triple is written as: "#" and three lower-case bytes. */
  function RgbColor(r: nat, g: nat, b: nat): (s: string)
    requires r < 256 && g < 256 && b < 256
    ensures IsColor(s)
    ensures Channel(s, 0) == r && Channel(s, 1) == g && Channel(s, 2) == b
    ensures forall i :: 1 <= i < 7 ==> IsLowerHexDigit(s[i])
  {
    "#" + HexByte(r) + HexByte(g) + HexByte(b)
  }

  /** The 24-bit value a colour spells. */
  function Packed(s: string): nat
    requires |s| == 7
  {
    Channel(s, 0) * 0x1_0000 + Channel(s, 1) * 0x100 + Channel(s, 2)
  }

  /** Every fixed team colour is a well-formed colour. */
  lemma TeamColorsAreColors()
    ensures forall t :: t in TeamColors ==> IsColor(TeamColors[t])
  {
    var keys := TeamColors.Keys;
    assert keys == {"Red Bull Racing", "Mercedes", "Ferrari", "McLaren", "Alpine",
                    "Aston Martin", "Williams", "AlphaTauri", "Alfa Romeo", "Haas"};
  }

  /**
   * The base colour of a team: its fixed colour, or else the lower-case
   * six-digit hex of the name's hash reduced modulo 0xFFFFFF. The hash is
   * a parameter: Python salts string hashes per process.
   */
  function BaseColor(team: string, hashValue: int): (c: string)
    ensures IsColor(c)
    ensures team in TeamColors ==> c == TeamColors[team]
    ensures team !in TeamColors ==>
      && (forall i :: 1 <= i < 7 ==> IsLowerHexDigit(c[i]))
      && Packed(c) == hashValue % 0xFF_FFFF
  {
    if team in TeamColors then
      TeamColorsAreColors();
      TeamColors[team]
    else
      var v := hashValue % 0xFF_FFFF;
      var c := RgbColor(v / 0x1_0000, v / 0x100 % 0x100, v % 0x100);
      SplitBytes(v);
      c
  }

  /** A 24-bit value is its three bytes, high to low. */
  lemma SplitBytes(v: nat)
    requires v < 0x100_0000
    ensures v / 0x1_0000 < 0x100
    ensures v == v / 0x1_0000 * 0x1_0000 + v / 0x100 % 0x100 * 0x100 + v % 0x100
  {
    var hi := v / 0x100;
    assert v == hi * 0x100 + v % 0x100;
    assert hi == hi / 0x100 * 0x100 + hi % 0x100;
    assert hi / 0x100 == v / 0x1_0000;
  }

  /**
   * A channel scaled by 0.8 and truncated, `int(c * 0.8)`: for a value in
   * 0..255 the floating-point product truncates to `(4 * c) / 5`.
   */
  function Darkened(c: nat): (d: nat)
    requires c < 256
    ensures 5 * d <= 4 * c < 5 * d + 5
    ensures d <= c && (c > 0 ==> d < c)
  {
    4 * c / 5
  }

  /**
   * `get_driver_color`: the team's base colour for the first driver
   * (`driver_idx <= 0`); for a teammate every channel scaled by 0.8 and
   * truncated, written back as lower-case "#rrggbb".
   */
  function DriverColor(team: string, driverIdx: int, hashValue: int): (c: string)
    ensures driverIdx <= 0 ==> c == BaseColor(team, hashValue)
    ensures driverIdx > 0 ==>
      && IsColor(c)
      && (forall i :: 1 <= i < 7 ==> IsLowerHexDigit(c[i]))
      && forall k :: 0 <= k < 3 ==> Channel(c, k) == Darkened(Channel(BaseColor(team, hashValue), k))
  {
    var base := BaseColor(team, hashValue);
    if driverIdx > 0 && base[0] == '#' then
      var r, g, b := Darkened(Channel(base, 0)), Darkened(Channel(base, 1)), Darkened(Channel(base, 2));
      var c := RgbColor(r, g, b);
      assert forall k :: 0 <= k < 3 ==> Channel(c, k) == Darkened(Channel(base, k)) by {
        forall k | 0 <= k < 3
          ensures Channel(c, k) == Darkened(Channel(base, k))
        {
          if k == 0 {
            assert Channel(c, 0) == r;
          } else if k == 1 {
            assert Channel(c, 1) == g;
          } else {
            assert k == 2 && Channel(c, 2) == b;
          }
        }
      }
      c
    else
      base
  }

  /**
   * A teammate's colour is never lighter than the first driver's in any
   * channel, and strictly darker in every channel that is not already 0.
   */
  lemma TeammateIsDarker(team: string, driverIdx: int, hashValue: int, k: nat)
    requires driverIdx > 0 && k < 3
    ensures Channel(DriverColor(team, driverIdx, hashValue), k) <= Channel(BaseColor(team, hashValue), k)
    ensures Channel(BaseColor(team, hashValue), k) > 0 ==>
      Channel(DriverColor(team, driverIdx, hashValue), k) < Channel(BaseColor(team, hashValue), k)
  {
    assert Channel(DriverColor(team, driverIdx, hashValue), k) == Darkened(Channel(BaseColor(team, hashValue), k));
  }

  /** No fixed team colour is black. */
  lemma TeamColorsAreNotBlack(team: string)
    requires team in TeamColors
    ensures Channel(TeamColors[team], 0) > 0 || Channel(TeamColors[team], 1) > 0 || Channel(TeamColors[team], 2) > 0
  {
    TeamColorsAreColors();
  }

  /**
   * A teammate's colour equals the first driver's exactly when the base
   * colour is black, which happens only for a team without a fixed colour
   * whose hash is a multiple of 0xFFFFFF.
   */
  lemma TeammatesShareColorIff(team: string, hashValue: int)
    ensures DriverColor(team, 1, hashValue) == DriverColor(team, 0, hashValue) <==>
      team !in TeamColors && hashValue % 0xFF_FFFF == 0
  {
    var base := BaseColor(team, hashValue);
    if team in TeamColors {
      TeamColorsAreNotBlack(team);
      TeammateDiffers(team, hashValue);
    } else if hashValue % 0xFF_FFFF == 0 {
      BlackTeammate(team, hashValue);
    } else {
      assert Packed(base) != 0;
      TeammateDiffers(team, hashValue);
    }
  }

  /** A base colour that is not black gives the teammate a different colour. */
  lemma TeammateDiffers(team: string, hashValue: int)
    requires var base := BaseColor(team, hashValue);
      Channel(base, 0) > 0 || Channel(base, 1) > 0 || Channel(base, 2) > 0
    ensures DriverColor(team, 1, hashValue) != BaseColor(team, hashValue)
  {
    var base := BaseColor(team, hashValue);
    if Channel(base, 0) > 0 {
      TeammateIsDarker(team, 1, hashValue, 0);
    } else if Channel(base, 1) > 0 {
      TeammateIsDarker(team, 1, hashValue, 1);
    } else {
      TeammateIsDarker(team, 1, hashValue, 2);
    }
  }

  /** A black base colour, darkened, stays the same text. */
  lemma BlackTeammate(team: string, hashValue: int)
    requires team !in TeamColors && hashValue % 0xFF_FFFF == 0
    ensures DriverColor(team, 1, hashValue) == BaseColor(team, hashValue)
  {
    var base := BaseColor(team, hashValue);
    var dark := DriverColor(team, 1, hashValue);
    assert Channel(base, 0) == 0 && Channel(base, 1) == 0 && Channel(base, 2) == 0;
    assert Channel(dark, 0) == Darkened(0) && Channel(dark, 1) == Darkened(0) && Channel(dark, 2) == Darkened(0);
    SameChannelsSameColor(dark, base);
  }

  /** A lower-case hex digit is determined by its value. */
  lemma LowerHexDigitUnique(a: char, b: char)
    requires IsLowerHexDigit(a) && IsLowerHexDigit(b) && HexValue(a) == HexValue(b)
    ensures a == b
  {
  }

  /** Two lower-case colours with the same three channels are the same text. */
  lemma SameChannelsSameColor(s: string, t: string)
    requires IsColor(s) && IsColor(t)
    requires forall i :: 1 <= i < 7 ==> IsLowerHexDigit(s[i]) && IsLowerHexDigit(t[i])
    requires Channel(s, 0) == Channel(t, 0) && Channel(s, 1) == Channel(t, 1) && Channel(s, 2) == Channel(t, 2)
    ensures s == t
  {
    LowerHexDigitUnique(s[1], t[1]);
    LowerHexDigitUnique(s[2], t[2]);
    LowerHexDigitUnique(s[3], t[3]);
    LowerHexDigitUnique(s[4], t[4]);
    LowerHexDigitUnique(s[5], t[5]);
    LowerHexDigitUnique(s[6], t[6]);
    forall i | 0 <= i < 7
      ensures s[i] == t[i]
    {
    }
  }
}
