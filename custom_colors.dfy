/**
 * UIToolKit::CustomColors (UIToolKit/CustomColors.cpp): the custom colours of
 * a colour dialog saved as one string of `#`-separated fields, one per
 * colour, `RRGGBB` for a valid colour and empty for an invalid one, and
 * loaded back from such a string.
 */
module CustomColors {
  import opened Types
  import opened Tokenizer

  /** The custom colour slots of wxColourData. */
  const NumColors: nat := 16

  const ColorDelimiter: char := '#'

  /** A wxColour: invalid (not IsOk) or a red, green, blue triple. */
  datatype Colour = Invalid | Rgb(red: u8, green: u8, blue: u8)

  /** The registry key custom colours are stored under by default. */
  function GetDefaultRegistryKey(): (key: string)
    ensures key == "CustomColors"
  {
    "CustomColors"
  }

  // ----- hexadecimal digits -----

  predicate IsHexDigit(c: char)
  {
    ('0' <= c <= '9') || ('A' <= c <= 'F') || ('a' <= c <= 'f')
  }

  function HexDigitValue(c: char): (v: nat)
    requires IsHexDigit(c)
    ensures v < 16
  {
    if '0' <= c <= '9' then c as nat - '0' as nat
    else if 'A' <= c <= 'F' then c as nat - 'A' as nat + 10
    else c as nat - 'a' as nat + 10
  }

  /** The upper-case digit for `v` (printf's %X). */
  function UpperHexDigit(v: nat): (c: char)
    requires v < 16
    ensures IsHexDigit(c) && HexDigitValue(c) == v
    ensures !('a' <= c <= 'f')
  {
    if v < 10 then ('0' as nat + v) as char else ('A' as nat + v - 10) as char
  }

  /** Two upper-case hex digits, most significant first. */
  function HexByte(b: u8): string
  {
    [UpperHexDigit(b as nat / 16), UpperHexDigit(b as nat % 16)]
  }

  // ----- Save -----

  /**
   * What Save writes for one colour: GetAsString(wxC2S_HTML_SYNTAX) gives
   * "#RRGGBB", of which the leading '#' is stripped.
   */
  function Field(c: Colour): (f: string)
    ensures c.Invalid? ==> f == []
    ensures c.Rgb? ==> |f| == 6 && forall k :: 0 <= k < 6 ==> IsHexDigit(f[k]) && !('a' <= f[k] <= 'f')
    ensures ColorDelimiter !in f
  {
    match c
    case Invalid => []
    case Rgb(r, g, b) => HexByte(r) + HexByte(g) + HexByte(b)
  }

  function SavedFields(colours: seq<Colour>): (fs: seq<string>)
    ensures |fs| == |colours|
    ensures forall k :: 0 <= k < |colours| ==> fs[k] == Field(colours[k])
  {
    seq(|colours|, k requires 0 <= k < |colours| => Field(colours[k]))
  }

  /** The saved form: the colours' fields with a delimiter between each consecutive pair. */
  function Serialized(colours: seq<Colour>): string
  {
    Join(SavedFields(colours), ColorDelimiter)
  }

  /**
   * The saved string consists of exactly one field per colour: splitting it at
   * its delimiters gives the fields back, so there are |colours| - 1
   * delimiters and none leads or trails.
   */
  lemma SerializedFields(colours: seq<Colour>)
    requires |colours| >= 1
    ensures Fields(Serialized(colours), ColorDelimiter) == SavedFields(colours)
    ensures Count(Serialized(colours), ColorDelimiter) == |colours| - 1
  {
    FieldsOfJoin(SavedFields(colours), ColorDelimiter);
    DelimitersOfJoin(SavedFields(colours), ColorDelimiter);
  }

  // ----- Load -----

  /** What sscanf's %02X does: up to two hex digits, their value and how many were read. */
  function ScanByte(s: string): (r: (nat, nat))
    ensures r.0 < 256 && r.1 <= 2 && r.1 <= |s|
    ensures r.1 == 0 ==> r.0 == 0
  {
    if |s| == 0 || !IsHexDigit(s[0]) then (0, 0)
    else if |s| == 1 || !IsHexDigit(s[1]) then (HexDigitValue(s[0]), 1)
    else (HexDigitValue(s[0]) * 16 + HexDigitValue(s[1]), 2)
  }

  /**
   * sscanf(s, "%02X%02X%02X", &red, &green, &blue) with all three starting at
   * zero: a conversion that reads no digit stops the scan, leaving the rest 0.
   */
  function ScanColour(s: string): (c: Colour)
    ensures c.Rgb?
    ensures |s| == 0 || !IsHexDigit(s[0]) ==> c == Rgb(0, 0, 0)
    ensures |s| >= 2 && IsHexDigit(s[0]) && IsHexDigit(s[1]) ==>
      c.red as nat == HexDigitValue(s[0]) * 16 + HexDigitValue(s[1])
  {
    var (red, n1) := ScanByte(s);
    if n1 == 0 then Rgb(0, 0, 0)
    else
      var (green, n2) := ScanByte(s[n1..]);
      if n2 == 0 then Rgb(red as u8, 0, 0)
      else
        var (blue, _) := ScanByte(s[n1 + n2..]);
        Rgb(red as u8, green as u8, blue as u8)
  }

  /** The custom colours after Load(info), given the colours before. */
  function Loaded(before: seq<Colour>, info: string): (after: seq<Colour>)
    ensures |after| == |before|
  {
    if info == [] then before
    else
      var tokens := Tokenize(info, ColorDelimiter);
      seq(|before|, k requires 0 <= k < |before| =>
        if k < |tokens| && k < NumColors && |tokens[k]| >= 6 then ScanColour(tokens[k]) else before[k])
  }

  /** The slot `k` after loading a non-empty string. */
  lemma LoadedAt(before: seq<Colour>, info: string, k: nat)
    requires info != [] && k < |before|
    ensures var tokens := Tokenize(info, ColorDelimiter);
      Loaded(before, info)[k]
        == if k < |tokens| && k < NumColors && |tokens[k]| >= 6 then ScanColour(tokens[k]) else before[k]
  {
  }

  /** Loading writes only slots below NumColors whose token is at least six characters long. */
  lemma LoadedFrame(before: seq<Colour>, info: string, k: nat)
    requires k < |before|
    requires info == [] || k >= NumColors || k >= |Tokenize(info, ColorDelimiter)|
          || |Tokenize(info, ColorDelimiter)[k]| < 6
    ensures Loaded(before, info)[k] == before[k]
  {
  }

  /** A token's first six characters, read as hex, are its red, green and blue bytes. */
  lemma ScanHexTriple(s: string)
    requires |s| >= 6 && forall k :: 0 <= k < 6 ==> IsHexDigit(s[k])
    ensures ScanColour(s) == Rgb(
      (HexDigitValue(s[0]) * 16 + HexDigitValue(s[1])) as u8,
      (HexDigitValue(s[2]) * 16 + HexDigitValue(s[3])) as u8,
      (HexDigitValue(s[4]) * 16 + HexDigitValue(s[5])) as u8)
  {
    assert s[2..][0] == s[2] && s[2..][1] == s[3];
    assert s[4..][0] == s[4] && s[4..][1] == s[5];
  }

  lemma ScanField(c: Colour)
    requires c.Rgb?
    ensures ScanColour(Field(c)) == c
  {
    var f := Field(c);
    ScanHexTriple(f);
    assert f[0] == UpperHexDigit(c.red as nat / 16) && f[1] == UpperHexDigit(c.red as nat % 16);
    assert f[2] == UpperHexDigit(c.green as nat / 16) && f[3] == UpperHexDigit(c.green as nat % 16);
    assert f[4] == UpperHexDigit(c.blue as nat / 16) && f[5] == UpperHexDigit(c.blue as nat % 16);
  }

  /**
   * Round trip: loading what Save wrote restores every valid colour and leaves
   * the slot of every invalid colour as it was.
   */
  lemma LoadSave(colours: seq<Colour>, before: seq<Colour>)
    requires |colours| == NumColors && |before| == NumColors
    ensures forall k :: 0 <= k < NumColors ==>
      Loaded(before, Serialized(colours))[k] == if colours[k].Rgb? then colours[k] else before[k]
  {
    var info := Serialized(colours);
    SavedTokens(colours);
    var tokens := Tokenize(info, ColorDelimiter);
    forall k | 0 <= k < NumColors
      ensures Loaded(before, info)[k] == if colours[k].Rgb? then colours[k] else before[k]
    {
      LoadedAt(before, info, k);
      if colours[k].Rgb? {
        ScanField(colours[k]);
      }
    }
  }

  /**
   * Splitting the saved string gives back the field of every colour, in its
   * slot; only an empty field of the last colour has no token.
   */
  lemma SavedTokens(colours: seq<Colour>)
    requires |colours| == NumColors
    ensures Serialized(colours) != []
    ensures var tokens := Tokenize(Serialized(colours), ColorDelimiter);
      && |tokens| <= NumColors
      && (forall k :: 0 <= k < |tokens| ==> tokens[k] == Field(colours[k]))
      && (forall k :: 0 <= k < NumColors && colours[k].Rgb? ==> k < |tokens|)
  {
    var fs := SavedFields(colours);
    TokenizeJoinAligned(fs, ColorDelimiter);
    assert Serialized(colours) == fs[0] + [ColorDelimiter] + Join(fs[1..], ColorDelimiter);
  }

  /** Round trip when every colour is valid: Load(Save(c)) gives back c, whatever was there before. */
  lemma LoadSaveAllValid(colours: seq<Colour>, before: seq<Colour>)
    requires |colours| == NumColors && |before| == NumColors
    requires forall k :: 0 <= k < NumColors ==> colours[k].Rgb?
    ensures Loaded(before, Serialized(colours)) == colours
  {
    LoadSave(colours, before);
  }

  // ----- the colour data and the two operations -----

  /** wxColourData's custom colour table. */
  class ColourData {
    const custom: array<Colour>

    ghost predicate Valid()
      reads this
    {
      custom.Length == NumColors
    }

    constructor (initial: seq<Colour>)
      requires |initial| == NumColors
      ensures Valid() && custom[..] == initial && fresh(custom)
    {
      custom := new Colour[NumColors](k requires 0 <= k < NumColors => initial[k]);
    }
  }

  /** Builds the delimited string of all custom colours. */
  method Save(colorData: ColourData) returns (info: string)
    requires colorData.Valid()
    ensures info == Serialized(colorData.custom[..])
  {
    ghost var fs := SavedFields(colorData.custom[..]);
    info := [];
    var colorIndex := 0;
    while colorIndex < NumColors
      invariant 0 <= colorIndex <= NumColors
      invariant info == Join(fs[..colorIndex], ColorDelimiter)
    {
      if colorIndex > 0 {
        info := info + [ColorDelimiter];
      }
      var field := Field(colorData.custom[colorIndex]);
      assert field == fs[colorIndex];
      info := info + field;
      JoinPrefix(fs, colorIndex, ColorDelimiter);
      colorIndex := colorIndex + 1;
    }
    assert fs[..NumColors] == fs;
  }

  /** Sets the custom colours from a string Save wrote. */
  method Load(colorData: ColourData, info: string)
    requires colorData.Valid()
    modifies colorData.custom
    ensures colorData.custom[..] == Loaded(old(colorData.custom[..]), info)
  {
    if info != [] {
      ghost var before := colorData.custom[..];
      ghost var target := Loaded(before, info);
      var colors := Tokenize(info, ColorDelimiter);
      var colorIndex := 0;
      while colorIndex < |colors| && colorIndex < NumColors
        invariant 0 <= colorIndex <= NumColors
        invariant forall k :: 0 <= k < NumColors ==>
          colorData.custom[k] == if k < colorIndex then target[k] else before[k]
      {
        var colorStr := colors[colorIndex];
        LoadedAt(before, info, colorIndex);
        if |colorStr| >= 6 {
          colorData.custom[colorIndex] := ScanColour(colorStr);
        }
        colorIndex := colorIndex + 1;
      }
      forall k | colorIndex <= k < NumColors ensures target[k] == before[k] {
        LoadedAt(before, info, k);
      }
      assert colorData.custom[..] == target;
    }
  }
}
