/**
 Codec records and codec matching. `CodecInfo` is the part of a codec capability
 and of negotiated codec parameters that matching looks at. A record with no
 parameters at all is treated like one with an empty parameter object.
 */
module Codecs {
  import opened Common
  import opened H264

  type int32 = n: int | -0x8000_0000 <= n < 0x8000_0000

  type uint8 = n: int | 0 <= n < 0x100

  /** A codec parameter is a number or a string. */
  datatype Value = Num(n: int) | Str(s: string)

  type Parameters = map<string, Value>

  /** `channels` is 0 when the member is absent. */
  datatype CodecInfo = CodecInfo(mimeType: string, clockRate: int, channels: int, parameters: Parameters)

  datatype Capability = Capability(kind: string, info: CodecInfo, preferredPayloadType: int32)

  datatype CodecParameters = CodecParameters(info: CodecInfo, payloadType: uint8)

  /** The conversion of a wider integer to 32 bits. */
  function ToInt32(n: int): int32 {
    var m := n % 0x1_0000_0000;
    if m < 0x8000_0000 then m else m - 0x1_0000_0000
  }

  function ToUint8(n: int): uint8 {
    n % 0x100
  }

  function Decimal(n: int): string
    decreases n < 0, if n < 0 then -n else n
  {
    if n < 0 then "-" + Decimal(-n)
    else if n < 10 then [['0', '1', '2', '3', '4', '5', '6', '7', '8', '9'][n]]
    else Decimal(n / 10) + Decimal(n % 10)
  }

  function LowerChar(c: char): char {
    if 'A' <= c <= 'Z' then c + 32 as char else c
  }

  function ToLower(s: string): string {
    seq(|s|, i requires 0 <= i < |s| => LowerChar(s[i]))
  }

  function MimeType(c: CodecInfo): string {
    ToLower(c.mimeType)
  }

  predicate IsRtx(c: CodecInfo) {
    MimeType(c) == "audio/rtx" || MimeType(c) == "video/rtx"
  }

  /** The `apt` parameter, or 0; validation has refused one that is not an integer. */
  function Apt(c: CodecInfo): int32 {
    if "apt" in c.parameters && c.parameters["apt"].Num? then ToInt32(c.parameters["apt"].n) else 0
  }

  /** What capability and parameter validation can refuse in such a record. */
  predicate Validates(c: CodecInfo) {
    && |c.mimeType| > 6 && (ToLower(c.mimeType[..6]) == "audio/" || ToLower(c.mimeType[..6]) == "video/")
    && c.clockRate != 0
    && ("apt" in c.parameters ==> c.parameters["apt"].Num?)
  }

  /** An integer parameter, or 0. */
  function IntParameter(c: CodecInfo, name: string): int {
    if name in c.parameters && c.parameters[name].Num? then c.parameters[name].n else 0
  }

  /** A parameter in string form, or the given default. */
  function StringParameter(c: CodecInfo, name: string, default: string): string {
    if name !in c.parameters then default
    else match c.parameters[name]
      case Num(n) => Decimal(ToInt32(n))
      case Str(s) => s
  }

  function PacketizationMode(c: CodecInfo): uint8 {
    ToUint8(IntParameter(c, PACKETIZATION_MODE))
  }

  function H264Parameters(c: CodecInfo): CodecParameterMap {
    map[LEVEL_ASYMMETRY_ALLOWED := Decimal(ToUint8(IntParameter(c, LEVEL_ASYMMETRY_ALLOWED))),
        PACKETIZATION_MODE := Decimal(PacketizationMode(c)),
        PROFILE_LEVEL_ID := StringParameter(c, PROFILE_LEVEL_ID, "")]
  }

  predicate IsH264(mime: string) {
    mime == "video/h264" || mime == "video/h264-svc"
  }

  /** Whether two codecs match; with `rewrite`, also the first codec as the match rewrites it. */
  function MatchCodecs(a: CodecInfo, b: CodecInfo, strict: bool, rewrite: bool): (bool, CodecInfo) {
    var mime := MimeType(a);
    if mime != MimeType(b) then (false, a)
    else if a.clockRate != b.clockRate then (false, a)
    else if mime == "audio/opus" && ((a.channels != 0) != (b.channels != 0)) then (false, a)
    else if mime == "audio/opus" && a.channels != 0 && a.channels != b.channels then (false, a)
    else if mime == "audio/multiopus" then
      (&& ToInt32(IntParameter(a, "num_streams")) == ToInt32(IntParameter(b, "num_streams"))
       && ToInt32(IntParameter(a, "coupled_streams")) == ToInt32(IntParameter(b, "coupled_streams")), a)
    else if IsH264(mime) && strict then
      if PacketizationMode(a) != PacketizationMode(b) then (false, a)
      else
        var p, q := H264Parameters(a), H264Parameters(b);
        if !IsSameH264Profile(p, q) then (false, a)
        else
          var answer := GenerateProfileLevelIdForAnswer(p, q, map[]);
          if !rewrite then (true, a)
          else if PROFILE_LEVEL_ID in answer then
            (true, a.(parameters := a.parameters[PROFILE_LEVEL_ID := Str(answer[PROFILE_LEVEL_ID])]))
          else (true, a.(parameters := a.parameters - {PROFILE_LEVEL_ID}))
    else if mime == "video/vp9" && strict then
      (StringParameter(a, "profile-id", "0") == StringParameter(b, "profile-id", "0"), a)
    else (true, a)
  }

  predicate Matches(a: CodecInfo, b: CodecInfo, strict: bool) {
    MatchCodecs(a, b, strict, false).0
  }

  datatype Detail =
    | Plain
    | Opus(channels: int)
    | MultiOpus(streams: int, coupled: int)
    | Vp9(profileId: string)
    | H264Profile(packetizationMode: int, profile: Profile)

  /** What a codec is matched by. */
  datatype Key = Key(mimeType: string, clockRate: int, detail: Detail)

  /** The key of a codec; a strictly matched H.264 codec without a valid profile has none. */
  function CodecKey(c: CodecInfo, strict: bool): Option<Key> {
    var mime := MimeType(c);
    if IsH264(mime) && strict then
      var id := ParseProfileLevelId(StringParameter(c, PROFILE_LEVEL_ID, ""));
      if id.None? then None
      else Some(Key(mime, c.clockRate, H264Profile(PacketizationMode(c), id.value.profile)))
    else Some(Key(mime, c.clockRate,
      if mime == "audio/opus" then Opus(c.channels)
      else if mime == "audio/multiopus" then
        MultiOpus(ToInt32(IntParameter(c, "num_streams")), ToInt32(IntParameter(c, "coupled_streams")))
      else if mime == "video/vp9" && strict then Vp9(StringParameter(c, "profile-id", "0"))
      else Plain))
  }

  /** Two codecs match exactly when both have a key and the keys are equal. */
  lemma MatchIffSameKey(a: CodecInfo, b: CodecInfo, strict: bool, rewrite: bool)
    ensures MatchCodecs(a, b, strict, rewrite).0
       <==> CodecKey(a, strict).Some? && CodecKey(a, strict) == CodecKey(b, strict)
  {
    if IsH264(MimeType(a)) && strict {
      assert ParseSdpProfileLevelId(H264Parameters(a)) == ParseProfileLevelId(StringParameter(a, PROFILE_LEVEL_ID, ""));
      assert ParseSdpProfileLevelId(H264Parameters(b)) == ParseProfileLevelId(StringParameter(b, PROFILE_LEVEL_ID, ""));
    }
  }

  /** Matching is symmetric and transitive, and strict matching is the finer of the two. */
  lemma MatchLaws(a: CodecInfo, b: CodecInfo, c: CodecInfo, strict: bool)
    ensures Matches(a, b, strict) <==> Matches(b, a, strict)
    ensures Matches(a, b, strict) && Matches(b, c, strict) ==> Matches(a, c, strict)
    ensures Matches(a, b, true) ==> Matches(a, b, false)
    ensures Matches(a, b, strict) ==> IsRtx(a) == IsRtx(b)
  {
    MatchIffSameKey(a, b, strict, false);
    MatchIffSameKey(b, a, strict, false);
    MatchIffSameKey(b, c, strict, false);
    MatchIffSameKey(a, c, strict, false);
    MatchIffSameKey(a, b, true, false);
    MatchIffSameKey(a, b, false, false);
  }

  /**
   Strict matching is reflexive exactly on codecs that have a key. An H.264 codec
   without a profile-level-id has none, and matches no codec at all.
   */
  lemma StrictReflexive(a: CodecInfo, b: CodecInfo)
    ensures Matches(a, a, true)
       <==> (IsH264(MimeType(a)) ==> ParseProfileLevelId(StringParameter(a, PROFILE_LEVEL_ID, "")).Some?)
    ensures IsH264(MimeType(a)) && PROFILE_LEVEL_ID !in a.parameters ==> !Matches(a, b, true)
  {
    MatchIffSameKey(a, a, true, false);
    MatchIffSameKey(a, b, true, false);
  }

  /** One name is the other one up to the case of its letters. */
  predicate SameName(a: string, b: string) {
    |a| == |b| && forall i :: 0 <= i < |a| ==> SameUpToCase(a[i], b[i])
  }

  lemma LowerSame(c: char, d: char)
    ensures LowerChar(c) == LowerChar(d) <==> SameUpToCase(c, d)
  {
  }

  lemma SameNameIff(a: string, b: string)
    ensures ToLower(a) == ToLower(b) <==> SameName(a, b)
  {
    forall i | 0 <= i < |a| && i < |b| ensures LowerChar(a[i]) == LowerChar(b[i]) <==> SameUpToCase(a[i], b[i]) {
      LowerSame(a[i], b[i]);
    }
    if ToLower(a) == ToLower(b) {
      assert |ToLower(a)| == |a| && |ToLower(b)| == |b|;
      forall i | 0 <= i < |a| ensures SameUpToCase(a[i], b[i]) {
        assert ToLower(a)[i] == ToLower(b)[i];
      }
    }
  }

  /** RTX codecs are the audio and video codecs of that name, in any case. */
  lemma IsRtxMeaning(c: CodecInfo)
    ensures IsRtx(c) <==> SameName(c.mimeType, "audio/rtx") || SameName(c.mimeType, "video/rtx")
  {
    SameNameIff(c.mimeType, "audio/rtx");
    SameNameIff(c.mimeType, "video/rtx");
    assert ToLower("audio/rtx") == "audio/rtx" && ToLower("video/rtx") == "video/rtx";
  }

  /** What validation asks for: an audio or video name, in any case, a clock rate, and an apt that is a number. */
  lemma ValidatesMeaning(c: CodecInfo)
    ensures Validates(c) <==>
      && |c.mimeType| > 6 && (SameName(c.mimeType[..6], "audio/") || SameName(c.mimeType[..6], "video/"))
      && c.clockRate != 0 && ("apt" !in c.parameters || exists n :: c.parameters["apt"] == Num(n))
  {
    if |c.mimeType| > 6 {
      SameNameIff(c.mimeType[..6], "audio/");
      SameNameIff(c.mimeType[..6], "video/");
      assert ToLower("audio/") == "audio/" && ToLower("video/") == "video/";
    }
    if "apt" in c.parameters && c.parameters["apt"].Num? {
      assert c.parameters["apt"] == Num(c.parameters["apt"].n);
    }
  }

  /** The apt that an RTX codec states, when it states one as a 32-bit number. */
  lemma AptMeaning(c: CodecInfo, n: int32)
    ensures "apt" in c.parameters && c.parameters["apt"] == Num(n) ==> Apt(c) == n
    ensures "apt" !in c.parameters ==> Apt(c) == 0
  {
  }

  /** `n` is the value of the parameter `name`, or 0 if it has no number there. */
  predicate NumberIs(c: CodecInfo, name: string, n: int) {
    if name in c.parameters && c.parameters[name].Num? then c.parameters[name] == Num(n) else n == 0
  }

  predicate TextIs(c: CodecInfo, name: string, default: string, text: string) {
    if name !in c.parameters then text == default else c.parameters[name] == Str(text)
  }

  /** The names that matching treats in its own way. */
  predicate IsNamed(c: CodecInfo, name: string) {
    SameName(c.mimeType, name)
  }

  // Matching spelled out for the codecs of each kind, on parameters within their range.

  /** A match needs names that agree up to case, and equal clock rates. */
  lemma MatchNeeds(a: CodecInfo, b: CodecInfo, strict: bool)
    ensures Matches(a, b, strict) ==> SameName(a.mimeType, b.mimeType) && a.clockRate == b.clockRate
  {
    SameNameIff(a.mimeType, b.mimeType);
  }

  lemma NamesDiffer()
    ensures ToLower("audio/opus") == "audio/opus" && ToLower("audio/multiopus") == "audio/multiopus"
    ensures ToLower("video/h264") == "video/h264" && ToLower("video/h264-svc") == "video/h264-svc"
    ensures ToLower("video/vp9") == "video/vp9"
  {
  }

  lemma OpusMatch(a: CodecInfo, b: CodecInfo, strict: bool)
    requires IsNamed(a, "audio/opus") && IsNamed(b, "audio/opus")
    ensures Matches(a, b, strict) <==> a.clockRate == b.clockRate && a.channels == b.channels
  {
    SameNameIff(a.mimeType, "audio/opus");
    SameNameIff(b.mimeType, "audio/opus");
    NamesDiffer();
  }

  lemma MultiOpusMatch(a: CodecInfo, b: CodecInfo, strict: bool, n: int32, k: int32, n': int32, k': int32)
    requires IsNamed(a, "audio/multiopus") && IsNamed(b, "audio/multiopus")
    requires NumberIs(a, "num_streams", n) && NumberIs(a, "coupled_streams", k)
    requires NumberIs(b, "num_streams", n') && NumberIs(b, "coupled_streams", k')
    ensures Matches(a, b, strict) <==> a.clockRate == b.clockRate && n == n' && k == k'
  {
    SameNameIff(a.mimeType, "audio/multiopus");
    SameNameIff(b.mimeType, "audio/multiopus");
    NamesDiffer();
  }

  lemma Vp9Match(a: CodecInfo, b: CodecInfo, strict: bool, p: string, q: string)
    requires IsNamed(a, "video/vp9") && IsNamed(b, "video/vp9")
    requires TextIs(a, "profile-id", "0", p) && TextIs(b, "profile-id", "0", q)
    ensures Matches(a, b, strict) <==> a.clockRate == b.clockRate && (strict ==> p == q)
  {
    SameNameIff(a.mimeType, "video/vp9");
    SameNameIff(b.mimeType, "video/vp9");
    NamesDiffer();
  }

  lemma H264Match(a: CodecInfo, b: CodecInfo, name: string, strict: bool, i: uint8, j: uint8, p: string, q: string)
    requires name == "video/h264" || name == "video/h264-svc"
    requires IsNamed(a, name) && IsNamed(b, name)
    requires NumberIs(a, "packetization-mode", i) && NumberIs(b, "packetization-mode", j)
    requires TextIs(a, "profile-level-id", "", p) && TextIs(b, "profile-level-id", "", q)
    ensures Matches(a, b, strict) <==>
      && a.clockRate == b.clockRate
      && (strict ==> i == j && ParseProfileLevelId(p).Some? && ParseProfileLevelId(q).Some?
                     && ParseProfileLevelId(p).value.profile == ParseProfileLevelId(q).value.profile)
  {
    SameNameIff(a.mimeType, name);
    SameNameIff(b.mimeType, name);
    NamesDiffer();
    MatchIffSameKey(a, b, strict, false);
    assert StringParameter(a, PROFILE_LEVEL_ID, "") == p && StringParameter(b, PROFILE_LEVEL_ID, "") == q;
    assert PacketizationMode(a) == i && PacketizationMode(b) == j;
  }

  /** Any other codecs match by name and clock rate alone. */
  lemma PlainMatch(a: CodecInfo, b: CodecInfo, strict: bool)
    requires SameName(a.mimeType, b.mimeType)
    requires !IsNamed(a, "audio/opus") && !IsNamed(a, "audio/multiopus") && !IsNamed(a, "video/vp9")
    requires !IsNamed(a, "video/h264") && !IsNamed(a, "video/h264-svc")
    ensures Matches(a, b, strict) <==> a.clockRate == b.clockRate
  {
    SameNameIff(a.mimeType, b.mimeType);
    SameNameIff(a.mimeType, "audio/opus");
    SameNameIff(a.mimeType, "audio/multiopus");
    SameNameIff(a.mimeType, "video/vp9");
    SameNameIff(a.mimeType, "video/h264");
    SameNameIff(a.mimeType, "video/h264-svc");
    NamesDiffer();
  }

  /**
   What a rewriting match rewrites: nothing but the profile-level-id of an H.264 codec.
   That becomes a string of the common profile, whose level is the first codec's if both
   allow asymmetry and otherwise the lower of the two; so the codec keeps its key and
   still matches its partner.
   */
  lemma ModifyKeepsMatch(a: CodecInfo, b: CodecInfo)
    requires MatchCodecs(a, b, true, true).0
    ensures var a' := MatchCodecs(a, b, true, true).1;
      CodecKey(a', true) == CodecKey(a, true) && Matches(a', b, true)
    ensures var a' := MatchCodecs(a, b, true, true).1;
      if IsH264(MimeType(a)) then
        && a' == a.(parameters := a'.parameters)
        && a'.parameters - {PROFILE_LEVEL_ID} == a.parameters - {PROFILE_LEVEL_ID}
        && PROFILE_LEVEL_ID in a'.parameters && a'.parameters[PROFILE_LEVEL_ID].Str?
        && AnsweredLevel(a, b, ParseProfileLevelId(a'.parameters[PROFILE_LEVEL_ID].s))
      else a' == a
  {
    var a' := MatchCodecs(a, b, true, true).1;
    if IsH264(MimeType(a)) {
      RewrittenAnswer(a, b);
      assert PacketizationMode(a') == PacketizationMode(a);
    }
    MatchIffSameKey(a, b, true, true);
    MatchIffSameKey(a', b, true, false);
  }

  /** The profile and level that a rewritten H.264 codec announces. */
  ghost predicate AnsweredLevel(a: CodecInfo, b: CodecInfo, answer: Option<ProfileLevelId>) {
    var p := ParseProfileLevelId(StringParameter(a, PROFILE_LEVEL_ID, ""));
    var q := ParseProfileLevelId(StringParameter(b, PROFILE_LEVEL_ID, ""));
    && p.Some? && q.Some? && answer.Some? && answer.value.profile == p.value.profile == q.value.profile
    && if AllowsAsymmetry(a) && AllowsAsymmetry(b) then answer.value.level == p.value.level
       else
         && Rank(answer.value.level) <= Rank(p.value.level) && Rank(answer.value.level) <= Rank(q.value.level)
         && (answer.value.level == p.value.level || answer.value.level == q.value.level)
  }

  predicate AllowsAsymmetry(c: CodecInfo) {
    Decimal(ToUint8(IntParameter(c, LEVEL_ASYMMETRY_ALLOWED))) == "1"
  }

  lemma DecimalLength(n: nat)
    ensures |Decimal(n)| >= 1 && (n >= 10 ==> |Decimal(n)| >= 2)
  {
    if n >= 10 {
      DecimalLength(n / 10);
      DecimalLength(n % 10);
    }
  }

  /** A codec allows asymmetry when its parameter is the number 1. */
  lemma AllowsMeaning(c: CodecInfo, n: uint8)
    requires NumberIs(c, "level-asymmetry-allowed", n)
    ensures AllowsAsymmetry(c) <==> n == 1
  {
    DecimalLength(n);
  }

  lemma RewrittenAnswer(a: CodecInfo, b: CodecInfo)
    requires MatchCodecs(a, b, true, true).0 && IsH264(MimeType(a))
    ensures var a' := MatchCodecs(a, b, true, true).1;
      && PROFILE_LEVEL_ID in a'.parameters && a'.parameters[PROFILE_LEVEL_ID].Str?
      && a' == a.(parameters := a.parameters[PROFILE_LEVEL_ID := a'.parameters[PROFILE_LEVEL_ID]])
      && AnsweredLevel(a, b, ParseProfileLevelId(a'.parameters[PROFILE_LEVEL_ID].s))
  {
    var p, q := H264Parameters(a), H264Parameters(b);
    AnswerMeaning(p, q, map[]);
    var answer := GenerateProfileLevelIdForAnswer(p, q, map[]);
    assert ParseSdpProfileLevelId(p) == ParseProfileLevelId(StringParameter(a, PROFILE_LEVEL_ID, ""));
    assert ParseSdpProfileLevelId(q) == ParseProfileLevelId(StringParameter(b, PROFILE_LEVEL_ID, ""));
    assert ParseSdpProfileLevelId(answer) == ParseProfileLevelId(answer[PROFILE_LEVEL_ID]);
  }
}
