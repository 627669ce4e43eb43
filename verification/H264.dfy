/**
 H.264 profile-level-id strings (sections 8.1 and 8.2.2 of RFC 6184): parsing,
 printing, the level order, and the level of an SDP answer.
 */
module H264 {
  import opened Common

  datatype Profile =
    | ConstrainedBaseline
    | Baseline
    | MainProfile
    | ConstrainedHigh
    | High
    | PredictiveHigh444

  datatype Level =
    | Level1b | Level1 | Level1p1 | Level1p2 | Level1p3
    | Level2 | Level2p1 | Level2p2
    | Level3 | Level3p1 | Level3p2
    | Level4 | Level4p1 | Level4p2
    | Level5 | Level5p1 | Level5p2

  datatype ProfileLevelId = ProfileLevelId(profile: Profile, level: Level)

  /** SDP codec parameters. */
  type CodecParameterMap = map<string, string>

  const PROFILE_LEVEL_ID := "profile-level-id"
  const LEVEL_ASYMMETRY_ALLOWED := "level-asymmetry-allowed"
  const PACKETIZATION_MODE := "packetization-mode"
  const CONSTRAINT_SET3_FLAG: bv32 := 0x10

  /** The enumerator's value: ten times the level number, and 0 for level 1b. */
  function Number(level: Level): bv32 {
    match level
    case Level1b => 0
    case Level1 => 10
    case Level1p1 => 11
    case Level1p2 => 12
    case Level1p3 => 13
    case Level2 => 20
    case Level2p1 => 21
    case Level2p2 => 22
    case Level3 => 30
    case Level3p1 => 31
    case Level3p2 => 32
    case Level4 => 40
    case Level4p1 => 41
    case Level4p2 => 42
    case Level5 => 50
    case Level5p1 => 51
    case Level5p2 => 52
  }

  /** Positions of an 8-character pattern that hold `c`, as a byte. */
  function ByteMask(c: char, pattern: string): bv32
    requires |pattern| == 8
  {
    (if pattern[0] == c then 0x80 else 0) | (if pattern[1] == c then 0x40 else 0) |
    (if pattern[2] == c then 0x20 else 0) | (if pattern[3] == c then 0x10 else 0) |
    (if pattern[4] == c then 0x08 else 0) | (if pattern[5] == c then 0x04 else 0) |
    (if pattern[6] == c then 0x02 else 0) | (if pattern[7] == c then 0x01 else 0)
  }

  predicate IsMatch(pattern: string, value: bv32)
    requires |pattern| == 8
  {
    ByteMask('1', pattern) == value & (0xFF ^ ByteMask('x', pattern))
  }

  /** The first row of the profile table that matches. */
  function FindProfile(idc: bv32, iop: bv32): Option<Profile> {
    if idc == 0x42 && IsMatch("x1xx0000", iop) then Some(ConstrainedBaseline)
    else if idc == 0x4D && IsMatch("1xxx0000", iop) then Some(ConstrainedBaseline)
    else if idc == 0x58 && IsMatch("11xx0000", iop) then Some(ConstrainedBaseline)
    else if idc == 0x42 && IsMatch("x0xx0000", iop) then Some(Baseline)
    else if idc == 0x58 && IsMatch("10xx0000", iop) then Some(Baseline)
    else if idc == 0x4D && IsMatch("0x0x0000", iop) then Some(MainProfile)
    else if idc == 0x64 && IsMatch("00000000", iop) then Some(High)
    else if idc == 0x64 && IsMatch("00001100", iop) then Some(ConstrainedHigh)
    else if idc == 0xF4 && IsMatch("00000000", iop) then Some(PredictiveHigh444)
    else None
  }

  function FindLevel(idc: bv32, iop: bv32): Option<Level> {
    if idc == 11 then Some(if iop & CONSTRAINT_SET3_FLAG != 0 then Level1b else Level1p1)
    else if idc == 10 then Some(Level1)
    else if idc == 12 then Some(Level1p2)
    else if idc == 13 then Some(Level1p3)
    else if idc == 20 then Some(Level2)
    else if idc == 21 then Some(Level2p1)
    else if idc == 22 then Some(Level2p2)
    else if idc == 30 then Some(Level3)
    else if idc == 31 then Some(Level3p1)
    else if idc == 32 then Some(Level3p2)
    else if idc == 40 then Some(Level4)
    else if idc == 41 then Some(Level4p1)
    else if idc == 42 then Some(Level4p2)
    else if idc == 50 then Some(Level5)
    else if idc == 51 then Some(Level5p1)
    else if idc == 52 then Some(Level5p2)
    else None
  }

  /** The three bytes of the number, as level_idc, profile_iop and profile_idc. */
  function ParseNumber(n: bv32): Option<ProfileLevelId> {
    var iop := (n >> 8) & 0xFF;
    var level := FindLevel(n & 0xFF, iop);
    var profile := FindProfile((n >> 16) & 0xFF, iop);
    if level.Some? && profile.Some? then Some(ProfileLevelId(profile.value, level.value)) else None
  }

  function HexValue(c: char): Option<bv32> {
    if c == '0' then Some(0) else if c == '1' then Some(1) else if c == '2' then Some(2) else if c == '3' then Some(3)
    else if c == '4' then Some(4) else if c == '5' then Some(5)
    else if c == '6' then Some(6) else if c == '7' then Some(7)
    else if c == '8' then Some(8) else if c == '9' then Some(9)
    else if c == 'a' || c == 'A' then Some(10) else if c == 'b' || c == 'B' then Some(11)
    else if c == 'c' || c == 'C' then Some(12) else if c == 'd' || c == 'D' then Some(13)
    else if c == 'e' || c == 'E' then Some(14) else if c == 'f' || c == 'F' then Some(15)
    else None
  }

  /** The number `n` with one more hexadecimal digit. */
  function Append(n: bv32, digit: bv32): bv32 {
    (n << 4) | digit
  }

  /** The hexadecimal digits at the front of `s`, appended to `n`. */
  function HexDigits(s: string, n: bv32): bv32 {
    if s == "" || HexValue(s[0]).None? then n
    else HexDigits(s[1..], Append(n, HexValue(s[0]).value))
  }

  function SkipSpaces(s: string): string {
    if s != "" && (s[0] == ' ' || '\t' <= s[0] <= '\r') then SkipSpaces(s[1..]) else s
  }

  function SkipPrefix(s: string): string {
    if |s| > 2 && s[0] == '0' && (s[1] == 'x' || s[1] == 'X') && HexValue(s[2]).Some? then s[2..] else s
  }

  /** The C library's conversion to base 16, cut to 32 bits, on strings too short to overflow. */
  function Strtol16(s: string): bv32 {
    var t := SkipSpaces(s);
    if t != "" && t[0] == '-' then 0 - HexDigits(SkipPrefix(t[1..]), 0)
    else if t != "" && t[0] == '+' then HexDigits(SkipPrefix(t[1..]), 0)
    else HexDigits(SkipPrefix(t), 0)
  }

  function ParseProfileLevelId(s: string): Option<ProfileLevelId> {
    if |s| != 6 then None
    else
      var n := Strtol16(s);
      if n == 0 then None else ParseNumber(n)
  }

  function ParseSdpProfileLevelId(params: CodecParameterMap): Option<ProfileLevelId> {
    if PROFILE_LEVEL_ID in params then ParseProfileLevelId(params[PROFILE_LEVEL_ID])
    else Some(ProfileLevelId(ConstrainedBaseline, Level3p1))
  }

  /** A level in two lower-case hexadecimal digits. */
  function LevelHex(level: Level): string {
    match level
    case Level1b => "00"
    case Level1 => "0a"
    case Level1p1 => "0b"
    case Level1p2 => "0c"
    case Level1p3 => "0d"
    case Level2 => "14"
    case Level2p1 => "15"
    case Level2p2 => "16"
    case Level3 => "1e"
    case Level3p1 => "1f"
    case Level3p2 => "20"
    case Level4 => "28"
    case Level4p1 => "29"
    case Level4p2 => "2a"
    case Level5 => "32"
    case Level5p1 => "33"
    case Level5p2 => "34"
  }

  function ProfileHex(profile: Profile): string {
    match profile
    case ConstrainedBaseline => "42e0"
    case Baseline => "4200"
    case MainProfile => "4d00"
    case ConstrainedHigh => "640c"
    case High => "6400"
    case PredictiveHigh444 => "f400"
  }

  function ProfileLevelIdToString(id: ProfileLevelId): Option<string> {
    if id.level == Level1b then
      match id.profile
      case ConstrainedBaseline => Some("42f00b")
      case Baseline => Some("42100b")
      case MainProfile => Some("4d100b")
      case _ => None
    else
      Some(ProfileHex(id.profile) + LevelHex(id.level))
  }

  /** The identifiers that have a string form: level 1b exists for three profiles only. */
  predicate Printable(id: ProfileLevelId) {
    id.level == Level1b ==> id.profile in {ConstrainedBaseline, Baseline, MainProfile}
  }

  function Digits(ds: seq<bv32>, n: bv32): bv32 {
    if ds == [] then n else Digits(ds[1..], Append(n, ds[0]))
  }

  /** On a string of hexadecimal digits the conversion uses every digit. */
  lemma {:induction false} HexDigitsAll(s: string, ds: seq<bv32>, n: bv32)
    requires |s| == |ds| && forall i :: 0 <= i < |s| ==> HexValue(s[i]) == Some(ds[i])
    ensures HexDigits(s, n) == Digits(ds, n)
  {
    if s != "" {
      HexDigitsAll(s[1..], ds[1..], Append(n, ds[0]));
    }
  }

  lemma HexIsPlain(c: char)
    requires HexValue(c).Some?
    ensures HexValue(c).value <= 15
    ensures c != ' ' && !('\t' <= c <= '\r') && c != '-' && c != '+' && c != 'x' && c != 'X'
  {
  }

  /** Two leading hexadecimal digits leave no space, sign or 0x to skip. */
  lemma NothingToSkip(s: string)
    requires |s| > 1 && HexValue(s[0]).Some? && HexValue(s[1]).Some?
    ensures Strtol16(s) == HexDigits(s, 0)
  {
    HexIsPlain(s[0]);
    HexIsPlain(s[1]);
    assert SkipSpaces(s) == s;
    assert SkipPrefix(s) == s;
  }

  lemma ParseDigits(s: string, ds: seq<bv32>)
    requires |s| == 6 && |ds| == 6 && forall i :: 0 <= i < 6 ==> HexValue(s[i]) == Some(ds[i])
    ensures Digits(ds, 0) != 0 ==> ParseProfileLevelId(s) == ParseNumber(Digits(ds, 0))
  {
    NothingToSkip(s);
    HexDigitsAll(s, ds, 0);
  }

  /** The value of a hexadecimal digit, in either case; no other character has one. */
  lemma HexValueMeaning(c: char)
    ensures '0' <= c <= '9' ==> HexValue(c).Some? && HexValue(c).value as int == c as int - '0' as int
    ensures 'a' <= c <= 'f' ==> HexValue(c).Some? && HexValue(c).value as int == c as int - 'a' as int + 10
    ensures 'A' <= c <= 'F' ==> HexValue(c).Some? && HexValue(c).value as int == c as int - 'A' as int + 10
    ensures !('0' <= c <= '9') && !('a' <= c <= 'f') && !('A' <= c <= 'F') ==> HexValue(c).None?
  {
  }

  predicate SameUpToCase(c: char, d: char) {
    || c == d
    || ('a' <= c <= 'z' && c as int - 'a' as int == d as int - 'A' as int)
    || ('a' <= d <= 'z' && d as int - 'a' as int == c as int - 'A' as int)
  }

  lemma HexCase(c: char, d: char)
    requires SameUpToCase(c, d)
    ensures HexValue(c) == HexValue(d)
  {
    HexValueMeaning(c);
    HexValueMeaning(d);
  }

  // The bits that each pattern of the profile table asks for.

  lemma Pattern_x1xx0000(iop: bv32)
    ensures IsMatch("x1xx0000", iop) <==> iop & 0x4F == 0x40
  {
  }

  lemma Pattern_1xxx0000(iop: bv32)
    ensures IsMatch("1xxx0000", iop) <==> iop & 0x8F == 0x80
  {
  }

  lemma Pattern_11xx0000(iop: bv32)
    ensures IsMatch("11xx0000", iop) <==> iop & 0xCF == 0xC0
  {
  }

  lemma Pattern_x0xx0000(iop: bv32)
    ensures IsMatch("x0xx0000", iop) <==> iop & 0x4F == 0
  {
  }

  lemma Pattern_10xx0000(iop: bv32)
    ensures IsMatch("10xx0000", iop) <==> iop & 0xCF == 0x80
  {
  }

  lemma Pattern_0x0x0000(iop: bv32)
    ensures IsMatch("0x0x0000", iop) <==> iop & 0xAF == 0
  {
  }

  lemma Pattern_00000000(iop: bv32)
    ensures IsMatch("00000000", iop) <==> iop & 0xFF == 0
  {
  }

  lemma Pattern_00001100(iop: bv32)
    ensures IsMatch("00001100", iop) <==> iop & 0xFF == 0x0C
  {
  }

  /** What the profile bytes mean, by their bits. */
  lemma FindProfileMeaning(idc: bv32, iop: bv32)
    ensures FindProfile(idc, iop) == Some(ConstrainedBaseline) <==>
      || (idc == 0x42 && iop & 0x4F == 0x40) || (idc == 0x4D && iop & 0x8F == 0x80)
      || (idc == 0x58 && iop & 0xCF == 0xC0)
    ensures FindProfile(idc, iop) == Some(Baseline) <==>
      (idc == 0x42 && iop & 0x4F == 0) || (idc == 0x58 && iop & 0xCF == 0x80)
    ensures FindProfile(idc, iop) == Some(MainProfile) <==> idc == 0x4D && iop & 0xAF == 0
    ensures FindProfile(idc, iop) == Some(High) <==> idc == 0x64 && iop & 0xFF == 0
    ensures FindProfile(idc, iop) == Some(ConstrainedHigh) <==> idc == 0x64 && iop & 0xFF == 0x0C
    ensures FindProfile(idc, iop) == Some(PredictiveHigh444) <==> idc == 0xF4 && iop & 0xFF == 0
  {
    Pattern_x1xx0000(iop);
    Pattern_1xxx0000(iop);
    Pattern_11xx0000(iop);
    Pattern_x0xx0000(iop);
    Pattern_10xx0000(iop);
    Pattern_0x0x0000(iop);
    Pattern_00000000(iop);
    Pattern_00001100(iop);
    if idc == 0x4D {
      MainBits(iop);
    }
  }

  lemma MainBits(iop: bv32)
    ensures !(iop & 0x8F == 0x80 && iop & 0xAF == 0)
  {
  }

  /** What the level byte means: 1b is 11 with constraint set 3, 1.1 is 11 without, any other is its number. */
  lemma FindLevelMeaning(idc: bv32, iop: bv32, l: Level)
    ensures FindLevel(idc, iop) == Some(l) <==>
      if l == Level1b then idc == 11 && iop & 0x10 != 0
      else if l == Level1p1 then idc == 11 && iop & 0x10 == 0
      else idc == Number(l)
  {
  }

  /** Two digits as a byte. */
  function TwoDigits(d: bv32, e: bv32): bv32 {
    (d << 4) | e
  }

  lemma FourBits(a: bv32, b: bv32, c: bv32, d: bv32)
    requires a <= 15 && b <= 15 && c <= 15 && d <= 15
    ensures var high := Append(Append(Append(Append(0, a), b), c), d);
      high <= 0xFFFF && (high >> 8) & 0xFF == TwoDigits(a, b) && high & 0xFF == TwoDigits(c, d)
  {
  }

  lemma ByteOfDigits(d: bv32, e: bv32)
    requires d <= 15 && e <= 15
    ensures TwoDigits(d, e) <= 0xFF && TwoDigits(d, e) >> 4 == d && TwoDigits(d, e) & 0xF == e
  {
  }

  lemma NumberIsBytes(n: bv32)
    ensures ParseNumber(n) == ParseBytes((n >> 16) & 0xFF, (n >> 8) & 0xFF, n & 0xFF)
  {
  }

  lemma ZeroIsNothing(profileIdc: bv32, profileIop: bv32)
    ensures ParseBytes(profileIdc, profileIop, 0).None?
  {
  }

  /** What three bytes mean: profile_idc, profile_iop and level_idc. */
  function ParseBytes(profileIdc: bv32, profileIop: bv32, levelIdc: bv32): Option<ProfileLevelId> {
    var level, profile := FindLevel(levelIdc, profileIop), FindProfile(profileIdc, profileIop);
    if level.Some? && profile.Some? then Some(ProfileLevelId(profile.value, level.value)) else None
  }

  lemma BytesOfDigits(ds: seq<bv32>)
    requires |ds| == 6 && forall i :: 0 <= i < 6 ==> ds[i] <= 15
    ensures var n := Digits(ds, 0);
      ParseBytes(TwoDigits(ds[0], ds[1]), TwoDigits(ds[2], ds[3]), TwoDigits(ds[4], ds[5]))
        == if n == 0 then None else ParseNumber(n)
  {
    SixDigits(ds);
    ThreeBytesRead(FourNumber(ds[..4]), ds[0], ds[1], ds[2], ds[3], ds[4], ds[5]);
  }

  lemma ThreeBytesRead(high: bv32, a: bv32, b: bv32, c: bv32, d: bv32, e: bv32, f: bv32)
    requires a <= 15 && b <= 15 && c <= 15 && d <= 15 && e <= 15 && f <= 15
    requires high == Append(Append(Append(Append(0, a), b), c), d)
    ensures var n := Append(Append(high, e), f);
      ParseBytes(TwoDigits(a, b), TwoDigits(c, d), TwoDigits(e, f)) == if n == 0 then None else ParseNumber(n)
  {
    var n := Append(Append(high, e), f);
    FourBits(a, b, c, d);
    DigitsRead(high, e, f);
    BytesRead(n, TwoDigits(a, b), TwoDigits(c, d), TwoDigits(e, f));
  }

  lemma DigitsRead(high: bv32, e: bv32, f: bv32)
    requires high <= 0xFFFF && e <= 15 && f <= 15
    ensures var n := Append(Append(high, e), f);
      && n & 0xFF == TwoDigits(e, f) && (n >> 8) & 0xFF == high & 0xFF && (n >> 16) & 0xFF == (high >> 8) & 0xFF
  {
  }

  lemma BytesRead(n: bv32, profileIdc: bv32, profileIop: bv32, levelIdc: bv32)
    requires (n >> 16) & 0xFF == profileIdc && (n >> 8) & 0xFF == profileIop && n & 0xFF == levelIdc
    ensures ParseBytes(profileIdc, profileIop, levelIdc) == if n == 0 then None else ParseNumber(n)
  {
    NumberIsBytes(n);
    if n == 0 {
      ZeroIsNothing(profileIdc, profileIop);
    }
  }

  /**
   What the parser does on six hexadecimal digits: they are the profile byte, the
   constraint byte and the level byte, each looked up by its meaning.
   */
  lemma ParseMeaning(s: string, ds: seq<bv32>)
    requires |s| == 6 && |ds| == 6 && forall i :: 0 <= i < 6 ==> HexValue(s[i]) == Some(ds[i])
    ensures ParseProfileLevelId(s)
         == ParseBytes(TwoDigits(ds[0], ds[1]), TwoDigits(ds[2], ds[3]), TwoDigits(ds[4], ds[5]))
  {
    forall i | 0 <= i < 6 ensures ds[i] <= 15 {
      HexIsPlain(s[i]);
    }
    BytesOfDigits(ds);
    NothingToSkip(s);
    HexDigitsAll(s, ds, 0);
    ParsedNumber(s, Digits(ds, 0));
  }

  lemma ParsedNumber(s: string, n: bv32)
    requires |s| == 6 && Strtol16(s) == n
    ensures ParseProfileLevelId(s) == if n == 0 then None else ParseNumber(n)
  {
  }

  lemma SixDigits(ds: seq<bv32>)
    requires |ds| == 6
    ensures Digits(ds, 0) == Append(Append(FourNumber(ds[..4]), ds[4]), ds[5])
  {
    FourDigits(ds[..4]);
    assert ds == ds[..4] + ds[4..];
    DigitsAppend(ds[..4], ds[4..], 0);
    DigitPair(ds[4..], FourNumber(ds[..4]));
  }

  /** Upper-case and lower-case digits mean the same. */
  lemma CaseDoesNotMatter(s: string, t: string)
    requires |s| == |t| == 6 && forall i :: 0 <= i < 6 ==> SameUpToCase(s[i], t[i]) && HexValue(s[i]).Some?
    ensures ParseProfileLevelId(s) == ParseProfileLevelId(t)
  {
    var ds := seq(6, i requires 0 <= i < 6 => HexValue(s[i]).value);
    forall i | 0 <= i < 6 ensures HexValue(t[i]) == Some(ds[i]) {
      HexCase(s[i], t[i]);
    }
    ParseMeaning(s, ds);
    ParseMeaning(t, ds);
  }

  /** Without a profile-level-id the default is constrained baseline at level 3.1. */
  lemma DefaultProfile(params: CodecParameterMap)
    requires "profile-level-id" !in params
    ensures ParseSdpProfileLevelId(params) == Some(ProfileLevelId(ConstrainedBaseline, Level3p1))
  {
  }

  /** Each profile's two leading bytes, as digits. */
  function ProfileDigits(profile: Profile): (ds: seq<bv32>)
    ensures |ds| == 4
  {
    match profile
    case ConstrainedBaseline => [4, 2, 14, 0]
    case Baseline => [4, 2, 0, 0]
    case MainProfile => [4, 13, 0, 0]
    case ConstrainedHigh => [6, 4, 0, 12]
    case High => [6, 4, 0, 0]
    case PredictiveHigh444 => [15, 4, 0, 0]
  }

  /** The leading bytes of the three strings of level 1b. */
  function Level1bDigits(profile: Profile): (ds: seq<bv32>)
    ensures |ds| == 4
  {
    if profile == ConstrainedBaseline then [4, 2, 15, 0]
    else if profile == Baseline then [4, 2, 1, 0]
    else [4, 13, 1, 0]
  }

  lemma {:induction false} DigitsAppend(ds: seq<bv32>, es: seq<bv32>, n: bv32)
    ensures Digits(ds + es, n) == Digits(es, Digits(ds, n))
  {
    if ds == [] {
      assert ds + es == es;
    } else {
      assert (ds + es)[1..] == ds[1..] + es;
      DigitsAppend(ds[1..], es, Append(n, ds[0]));
    }
  }

  lemma DigitPair(ds: seq<bv32>, n: bv32)
    requires |ds| == 2
    ensures Digits(ds, n) == Append(Append(n, ds[0]), ds[1])
  {
    var rest, m := ds[1..], Append(n, ds[0]);
    assert Digits(ds, n) == Digits(rest, m);
    assert rest[0] == ds[1] && rest[1..] == [];
    assert Digits(rest, m) == Digits(rest[1..], Append(m, rest[0])) == Append(m, rest[0]);
  }

  function FourNumber(d: seq<bv32>): bv32
    requires |d| == 4
  {
    Append(Append(Append(Append(0, d[0]), d[1]), d[2]), d[3])
  }

  lemma FourDigits(ds: seq<bv32>)
    requires |ds| == 4
    ensures Digits(ds, 0) == FourNumber(ds)
  {
    assert ds == ds[..2] + ds[2..];
    DigitsAppend(ds[..2], ds[2..], 0);
    DigitPair(ds[..2], 0);
    DigitPair(ds[2..], Digits(ds[..2], 0));
  }

  /** Two more digits are one more byte; the three bytes can be read back. */
  lemma AppendByte(high: bv32, low: bv32)
    requires high <= 0xFFFF && low <= 0xFF
    ensures var n := Append(Append(high, low >> 4), low & 0xF);
      n & 0xFF == low && (n >> 8) & 0xFF == high & 0xFF && (n >> 16) & 0xFF == (high >> 8) & 0xFF
  {
  }

  lemma ProfileBytes(p: Profile)
    ensures var high := FourNumber(ProfileDigits(p));
      && 0 < high <= 0xFFFF && (high & 0xFF) & CONSTRAINT_SET3_FLAG == 0
      && FindProfile((high >> 8) & 0xFF, high & 0xFF) == Some(p)
  {
  }

  lemma Level1bBytes(p: Profile)
    requires Printable(ProfileLevelId(p, Level1b))
    ensures var high := FourNumber(Level1bDigits(p));
      && 0 < high <= 0xFFFF && (high & 0xFF) & CONSTRAINT_SET3_FLAG != 0
      && FindProfile((high >> 8) & 0xFF, high & 0xFF) == Some(p)
  {
  }

  lemma LevelByte(l: Level, iop: bv32)
    requires l != Level1b && iop & CONSTRAINT_SET3_FLAG == 0
    ensures 0 < Number(l) <= 0xFF && FindLevel(Number(l), iop) == Some(l)
  {
  }

  lemma ThreeBytes(high: bv32, low: bv32, id: ProfileLevelId)
    requires high <= 0xFFFF && 0 < low <= 0xFF
    requires ParseBytes((high >> 8) & 0xFF, high & 0xFF, low) == Some(id)
    ensures var n := Append(Append(high, low >> 4), low & 0xF);
      n != 0 && ParseNumber(n) == Some(id)
  {
    var n := Append(Append(high, low >> 4), low & 0xF);
    AppendByte(high, low);
    NumberIsBytes(n);
    assert n & 0xFF != 0;
  }

  /** Four digits of a profile and a byte for the level, found in the tables, parse to that profile and level. */
  lemma ParseCanonical(s: string, ds: seq<bv32>, high: bv32, low: bv32, id: ProfileLevelId)
    requires |s| == 6 && |ds| == 4 && high == Digits(ds, 0) && high <= 0xFFFF && 0 < low <= 0xFF
    requires forall i :: 0 <= i < 4 ==> HexValue(s[i]) == Some(ds[i])
    requires HexValue(s[4]) == Some(low >> 4) && HexValue(s[5]) == Some(low & 0xF)
    requires FindProfile((high >> 8) & 0xFF, high & 0xFF) == Some(id.profile)
    requires FindLevel(low, high & 0xFF) == Some(id.level)
    ensures ParseProfileLevelId(s) == Some(id)
  {
    var es := [low >> 4, low & 0xF];
    ThreeBytes(high, low, id);
    DigitsAppend(ds, es, 0);
    DigitPair(es, high);
    ParseDigits(s, ds + es);
  }

  lemma CanonicalString(p: Profile, l: Level)
    requires l != Level1b
    ensures var s, ds := ProfileHex(p) + LevelHex(l), ProfileDigits(p);
      && |s| == 6 && (forall i :: 0 <= i < 4 ==> HexValue(s[i]) == Some(ds[i]))
      && HexValue(s[4]) == Some(Number(l) >> 4) && HexValue(s[5]) == Some(Number(l) & 0xF)
  {
  }

  lemma ParseLevel1b(id: ProfileLevelId)
    requires id.level == Level1b && Printable(id)
    ensures ParseProfileLevelId(ProfileLevelIdToString(id).value) == Some(id)
  {
    var s, ds := ProfileLevelIdToString(id).value, Level1bDigits(id.profile);
    Level1bBytes(id.profile);
    FourDigits(ds);
    ParseCanonical(s, ds, FourNumber(ds), 11, id);
  }

  /** Parsing never yields an identifier without a string form. */
  lemma ParsedIsPrintable(s: string)
    requires ParseProfileLevelId(s).Some?
    ensures |s| == 6 && Printable(ParseProfileLevelId(s).value)
  {
    var n := Strtol16(s);
    assert ParseNumber(n).Some?;
  }

  /** Exactly the printable identifiers have a string, and it parses back to the same identifier. */
  lemma PrintParse(id: ProfileLevelId)
    ensures ProfileLevelIdToString(id).Some? <==> Printable(id)
    ensures Printable(id) ==> ParseProfileLevelId(ProfileLevelIdToString(id).value) == Some(id)
  {
    if id.level == Level1b {
      if Printable(id) {
        ParseLevel1b(id);
      }
    } else {
      ProfileBytes(id.profile);
      LevelByte(id.level, FourNumber(ProfileDigits(id.profile)) & 0xFF);
      CanonicalString(id.profile, id.level);
      FourDigits(ProfileDigits(id.profile));
      ParseCanonical(ProfileHex(id.profile) + LevelHex(id.level), ProfileDigits(id.profile),
                     FourNumber(ProfileDigits(id.profile)), Number(id.level), id);
    }
  }

  /** Canonical form: every accepted string has one that means the same. */
  lemma ParsePrintParse(s: string)
    requires ParseProfileLevelId(s).Some?
    ensures var text := ProfileLevelIdToString(ParseProfileLevelId(s).value);
      text.Some? && ParseProfileLevelId(text.value) == ParseProfileLevelId(s)
  {
    ParsedIsPrintable(s);
    PrintParse(ParseProfileLevelId(s).value);
  }

  predicate IsLess(a: Level, b: Level) {
    if a == Level1b then b != Level1 && b != Level1b
    else if b == Level1b then a == Level1
    else Number(a) < Number(b)
  }

  function MinLevel(a: Level, b: Level): Level {
    if IsLess(a, b) then a else b
  }

  /** An embedding of the level order into the integers, with 1b halfway between 1 and 1.1. */
  function Rank(level: Level): int {
    match level
    case Level1b => 21
    case Level1 => 20
    case Level1p1 => 22
    case Level1p2 => 24
    case Level1p3 => 26
    case Level2 => 40
    case Level2p1 => 42
    case Level2p2 => 44
    case Level3 => 60
    case Level3p1 => 62
    case Level3p2 => 64
    case Level4 => 80
    case Level4p1 => 82
    case Level4p2 => 84
    case Level5 => 100
    case Level5p1 => 102
    case Level5p2 => 104
  }

  /** The comparison is the order of the ranks, so it is a strict total order. */
  lemma LevelOrder(a: Level, b: Level)
    ensures IsLess(a, b) <==> Rank(a) < Rank(b)
    ensures IsLess(a, b) || a == b || IsLess(b, a)
  {
  }

  predicate IsLevelAsymmetryAllowed(params: CodecParameterMap) {
    LEVEL_ASYMMETRY_ALLOWED in params && params[LEVEL_ASYMMETRY_ALLOWED] == "1"
  }

  predicate IsSameH264Profile(a: CodecParameterMap, b: CodecParameterMap) {
    var p, q := ParseSdpProfileLevelId(a), ParseSdpProfileLevelId(b);
    p.Some? && q.Some? && p.value.profile == q.value.profile
  }

  lemma SdpIsPrintable(params: CodecParameterMap)
    ensures var id := ParseSdpProfileLevelId(params); id.Some? ==> Printable(id.value)
  {
    if PROFILE_LEVEL_ID in params && ParseProfileLevelId(params[PROFILE_LEVEL_ID]).Some? {
      ParsedIsPrintable(params[PROFILE_LEVEL_ID]);
    }
  }

  /** The level the answer carries. */
  function AnswerLevel(local: CodecParameterMap, remote: CodecParameterMap): Level
    requires IsSameH264Profile(local, remote)
  {
    var localLevel := ParseSdpProfileLevelId(local).value.level;
    if IsLevelAsymmetryAllowed(local) && IsLevelAsymmetryAllowed(remote) then localLevel
    else MinLevel(localLevel, ParseSdpProfileLevelId(remote).value.level)
  }

  /** The answer's parameters; the profiles of both sides must be valid and equal. */
  function GenerateProfileLevelIdForAnswer(
    local: CodecParameterMap, remote: CodecParameterMap, answer: CodecParameterMap)
    : CodecParameterMap
    requires IsSameH264Profile(local, remote)
  {
    if PROFILE_LEVEL_ID !in local && PROFILE_LEVEL_ID !in remote then answer
    else
      var id := ProfileLevelId(ParseSdpProfileLevelId(local).value.profile, AnswerLevel(local, remote));
      AnswerIsPrintable(local, remote);
      answer[PROFILE_LEVEL_ID := ProfileLevelIdToString(id).value]
  }

  /** The string the answer dereferences always exists. */
  lemma AnswerIsPrintable(local: CodecParameterMap, remote: CodecParameterMap)
    requires IsSameH264Profile(local, remote)
    ensures var id := ProfileLevelId(ParseSdpProfileLevelId(local).value.profile, AnswerLevel(local, remote));
      Printable(id) && ProfileLevelIdToString(id).Some?
  {
    SdpIsPrintable(local);
    SdpIsPrintable(remote);
    PrintParse(ProfileLevelId(ParseSdpProfileLevelId(local).value.profile, AnswerLevel(local, remote)));
  }

  /**
   The answer names the common profile. Unless both sides allow asymmetry its
   level exceeds neither side's, is one of the two, and does not depend on which
   side answers; otherwise it is the local level.
   */
  lemma AnswerMeaning(local: CodecParameterMap, remote: CodecParameterMap, answer: CodecParameterMap)
    requires IsSameH264Profile(local, remote)
    requires PROFILE_LEVEL_ID in local || PROFILE_LEVEL_ID in remote
    ensures var p, q := ParseSdpProfileLevelId(local).value, ParseSdpProfileLevelId(remote).value;
      var id := ParseSdpProfileLevelId(GenerateProfileLevelIdForAnswer(local, remote, answer));
      && id.Some? && id.value.profile == p.profile == q.profile
      && if "level-asymmetry-allowed" in local && local["level-asymmetry-allowed"] == "1"
            && "level-asymmetry-allowed" in remote && remote["level-asymmetry-allowed"] == "1"
         then id.value.level == p.level
         else
           && Rank(id.value.level) <= Rank(p.level) && Rank(id.value.level) <= Rank(q.level)
           && (id.value.level == p.level || id.value.level == q.level)
           && GenerateProfileLevelIdForAnswer(remote, local, answer)
              == GenerateProfileLevelIdForAnswer(local, remote, answer)
  {
    var p, q := ParseSdpProfileLevelId(local).value, ParseSdpProfileLevelId(remote).value;
    AnswerIsPrintable(local, remote);
    PrintParse(ProfileLevelId(p.profile, AnswerLevel(local, remote)));
    LevelOrder(p.level, q.level);
    LevelOrder(q.level, p.level);
  }
}
