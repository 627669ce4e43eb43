/** How a producer's payload types map to the router's. */
module ProducerMapping {
  import opened Common
  import opened Codecs
  import opened RouterCapabilities

  type Mapping = map<int, int32>

  /** The first capability that a producer codec strictly matches. */
  function FindStrict(c: CodecInfo, caps: seq<Capability>): Option<Capability> {
    if caps == [] then None
    else if MatchCodecs(c, caps[0].info, true, true).0 then Some(caps[0])
    else FindStrict(c, caps[1..])
  }

  function FindCodec(codecs: seq<CodecParameters>, pt: int): Option<CodecParameters> {
    if codecs == [] then None
    else if codecs[0].payloadType == pt then Some(codecs[0])
    else FindCodec(codecs[1..], pt)
  }

  predicate IsRtxFor(cap: Capability, pt: int) {
    IsRtx(cap.info) && Apt(cap.info) == pt
  }

  /** The last RTX capability whose apt is `pt`. */
  function LastRtx(caps: seq<Capability>, pt: int): Option<Capability> {
    if caps == [] then None
    else if IsRtxFor(caps[|caps| - 1], pt) then Some(caps[|caps| - 1])
    else LastRtx(caps[..|caps| - 1], pt)
  }

  /** First pass: every media codec to the capability it matches. */
  function MapMedia(codecs: seq<CodecParameters>, caps: seq<Capability>): Result<Mapping> {
    if codecs == [] then Success(map[])
    else
      var before, c := MapMedia(codecs[..|codecs| - 1], caps), codecs[|codecs| - 1];
      if before.Failure? || IsRtx(c.info) then before
      else
        var cap := FindStrict(c.info, caps);
        if cap.None? then Failure else Success(before.value[c.payloadType := cap.value.preferredPayloadType])
  }

  /**
   One RTX codec of the second pass. Looking up a payload type that has no entry
   yields the value 0 and leaves an entry behind, as the source's map does.
   */
  function MapOneRtx(m: Mapping, c: CodecParameters, all: seq<CodecParameters>, caps: seq<Capability>): Result<Mapping>
  {
    var media := FindCodec(all, Apt(c.info));
    if media.None? then Failure
    else
      var pt := media.value.payloadType;
      var m' := if pt in m then m else m[pt := 0];
      var rtx := LastRtx(caps, m'[pt]);
      if rtx.None? then Failure else Success(m'[c.payloadType := rtx.value.preferredPayloadType])
  }

  /** Second pass over the first `n` codecs. */
  function MapRtx(codecs: seq<CodecParameters>, n: nat, caps: seq<Capability>): Result<Mapping>
    requires n <= |codecs|
  {
    if n == 0 then MapMedia(codecs, caps)
    else
      var before, c := MapRtx(codecs, n - 1, caps), codecs[n - 1];
      if before.Failure? || !IsRtx(c.info) then before else MapOneRtx(before.value, c, codecs, caps)
  }

  function MapCodecs(codecs: seq<CodecParameters>, caps: seq<Capability>): Result<Mapping> {
    MapRtx(codecs, |codecs|, caps)
  }

  lemma {:induction false} FindStrictMeaning(c: CodecInfo, caps: seq<Capability>)
    ensures var r := FindStrict(c, caps);
      r.Some? ==> r.value in caps && Matches(c, r.value.info, true) && IsRtx(c) == IsRtx(r.value.info)
  {
    if caps != [] {
      MatchIffSameKey(c, caps[0].info, true, true);
      MatchIffSameKey(c, caps[0].info, true, false);
      MatchLaws(c, caps[0].info, c, true);
      FindStrictMeaning(c, caps[1..]);
    }
  }

  lemma {:induction false} FindCodecMeaning(codecs: seq<CodecParameters>, pt: int)
    ensures var r := FindCodec(codecs, pt);
      if r.Some? then r.value in codecs && r.value.payloadType == pt
      else forall c :: c in codecs ==> c.payloadType != pt
  {
    if codecs != [] {
      FindCodecMeaning(codecs[1..], pt);
    }
  }

  lemma {:induction false} LastRtxMeaning(caps: seq<Capability>, pt: int)
    ensures var r := LastRtx(caps, pt); r.Some? ==> r.value in caps && IsRtxFor(r.value, pt)
  {
    if caps != [] {
      LastRtxMeaning(caps[..|caps| - 1], pt);
    }
  }

  /**
   In the router's list an apt is never 0 and never the payload type of an RTX codec,
   and names one RTX codec at most.
   */
  lemma AptNamesMedia(caps: seq<Capability>, r: Capability)
    requires WellPlaced(caps) && r in caps && IsRtx(r.info)
    ensures Apt(r.info) != 0
    ensures forall x :: x in caps && IsRtx(x.info) ==> x.preferredPayloadType != Apt(r.info)
    ensures forall x :: x in caps && IsRtx(x.info) && Apt(x.info) == Apt(r.info) ==> x == r
  {
    var i :| 0 <= i < |caps| && caps[i] == r;
    assert IsRtxOf(caps[i], caps[i - 1]);
    forall x | x in caps && IsRtx(x.info)
      ensures x.preferredPayloadType != Apt(r.info) && (Apt(x.info) == Apt(r.info) ==> x == r)
    {
      var j :| 0 <= j < |caps| && caps[j] == x;
      assert IsRtxOf(caps[j], caps[j - 1]);
      assert i != j ==> caps[i - 1].preferredPayloadType != caps[j - 1].preferredPayloadType;
      assert j != i - 1;
    }
  }

  /** The last media codec, or the last RTX codec, that has the payload type. */
  function LastOf(codecs: seq<CodecParameters>, pt: int, rtx: bool): Option<CodecParameters> {
    if codecs == [] then None
    else
      var last := codecs[|codecs| - 1];
      if last.payloadType == pt && IsRtx(last.info) == rtx then Some(last) else LastOf(codecs[..|codecs| - 1], pt, rtx)
  }

  predicate HasSort(codecs: seq<CodecParameters>, pt: int, rtx: bool) {
    exists c :: c in codecs && IsRtx(c.info) == rtx && c.payloadType == pt
  }

  lemma {:induction false} LastOfMeaning(codecs: seq<CodecParameters>, pt: int, rtx: bool)
    ensures var r := LastOf(codecs, pt, rtx);
      && (r.Some? <==> HasSort(codecs, pt, rtx))
      && (r.Some? ==> r.value in codecs && r.value.payloadType == pt && IsRtx(r.value.info) == rtx)
  {
    if codecs != [] {
      var front, last := codecs[..|codecs| - 1], codecs[|codecs| - 1];
      assert codecs == front + [last];
      LastOfMeaning(front, pt, rtx);
      if HasSort(front, pt, rtx) {
        var c :| c in front && IsRtx(c.info) == rtx && c.payloadType == pt;
        assert c in codecs;
      }
    }
  }

  /** The router's entry for the media codec with a payload type; of several codecs the last one decides. */
  function MediaEntry(codecs: seq<CodecParameters>, caps: seq<Capability>, pt: int): Option<Capability> {
    var d := LastOf(codecs, pt, false);
    if d.None? then None else FindStrict(d.value.info, caps)
  }

  /** The router's RTX entry for the media codec that the apt of an RTX codec names. */
  function RtxEntry(codecs: seq<CodecParameters>, caps: seq<Capability>, c: CodecParameters): Option<Capability> {
    var media := MediaEntry(codecs, caps, Apt(c.info));
    if media.None? then None else LastRtx(caps, media.value.preferredPayloadType)
  }

  /** The entry a payload type is mapped to when the RTX codecs among the first `n` have been entered. */
  function Target(codecs: seq<CodecParameters>, n: nat, caps: seq<Capability>, pt: int): Option<Capability>
    requires n <= |codecs|
  {
    var r := LastOf(codecs[..n], pt, true);
    if r.Some? then RtxEntry(codecs, caps, r.value) else MediaEntry(codecs, caps, pt)
  }

  ghost predicate Describes(codecs: seq<CodecParameters>, n: nat, caps: seq<Capability>, m: Mapping)
    requires n <= |codecs|
  {
    forall pt: int ::
      && (pt in m <==> Target(codecs, n, caps, pt).Some?)
      && (pt in m ==> m[pt] == Target(codecs, n, caps, pt).value.preferredPayloadType)
  }

  predicate MediaMatch(codecs: seq<CodecParameters>, caps: seq<Capability>) {
    forall c :: c in codecs && !IsRtx(c.info) ==> FindStrict(c.info, caps).Some?
  }

  /**
   An RTX codec is accepted when its apt is the type of a media codec whose entry has
   an RTX entry, and no earlier RTX codec has taken that type over.
   */
  predicate RtxAccepted(codecs: seq<CodecParameters>, i: nat, caps: seq<Capability>)
    requires i < |codecs|
  {
    RtxEntry(codecs, caps, codecs[i]).Some? && !HasSort(codecs[..i], Apt(codecs[i].info), true)
  }

  predicate RtxAllAccepted(codecs: seq<CodecParameters>, n: nat, caps: seq<Capability>)
    requires n <= |codecs|
  {
    forall i :: 0 <= i < n && IsRtx(codecs[i].info) ==> RtxAccepted(codecs, i, caps)
  }

  /** The first pass fails exactly when a media codec has no match; otherwise it maps each type to its entry. */
  lemma {:induction false} MapMediaForm(codecs: seq<CodecParameters>, caps: seq<Capability>)
    ensures MapMedia(codecs, caps).Success? <==> MediaMatch(codecs, caps)
    ensures MapMedia(codecs, caps).Success? ==>
      var m := MapMedia(codecs, caps).value;
      forall pt: int ::
        && (pt in m <==> MediaEntry(codecs, caps, pt).Some?)
        && (pt in m ==> m[pt] == MediaEntry(codecs, caps, pt).value.preferredPayloadType)
  {
    if codecs != [] {
      var front, last := codecs[..|codecs| - 1], codecs[|codecs| - 1];
      assert codecs == front + [last];
      MapMediaForm(front, caps);
    }
  }

  lemma AcceptedEarlier(codecs: seq<CodecParameters>, n: nat, caps: seq<Capability>, pt: int)
    requires n <= |codecs| && RtxAllAccepted(codecs, n, caps) && LastOf(codecs[..n], pt, true).Some?
    ensures RtxEntry(codecs, caps, LastOf(codecs[..n], pt, true).value).Some?
  {
    LastOfMeaning(codecs[..n], pt, true);
    var i :| 0 <= i < n && codecs[i] == LastOf(codecs[..n], pt, true).value;
    assert RtxAccepted(codecs, i, caps);
  }

  lemma RtxEntryMeaning(codecs: seq<CodecParameters>, caps: seq<Capability>, c: CodecParameters)
    requires RtxEntry(codecs, caps, c).Some?
    ensures var x := RtxEntry(codecs, caps, c).value;
      && x in caps && IsRtx(x.info) && HasSort(codecs, Apt(c.info), false)
      && Apt(x.info) == MediaEntry(codecs, caps, Apt(c.info)).value.preferredPayloadType
  {
    LastOfMeaning(codecs, Apt(c.info), false);
    LastRtxMeaning(caps, MediaEntry(codecs, caps, Apt(c.info)).value.preferredPayloadType);
  }

  /** No RTX entry has apt 0 or the type of an RTX entry. */
  lemma NoSuchRtx(caps: seq<Capability>, pt: int)
    requires WellPlaced(caps) && (pt == 0 || exists x :: x in caps && IsRtx(x.info) && x.preferredPayloadType == pt)
    ensures LastRtx(caps, pt).None?
  {
    LastRtxMeaning(caps, pt);
    if LastRtx(caps, pt).Some? {
      AptNamesMedia(caps, LastRtx(caps, pt).value);
    }
  }

  /** The codec that the search by apt finds, when there is a media codec of that type, has that type. */
  lemma SearchFinds(codecs: seq<CodecParameters>, pt: int, rtx: bool)
    requires HasSort(codecs, pt, rtx)
    ensures FindCodec(codecs, pt).Some? && FindCodec(codecs, pt).value.payloadType == pt
  {
    FindCodecMeaning(codecs, pt);
  }

  /** One RTX codec of the second pass succeeds exactly when it is accepted, whatever payload types repeat. */
  lemma OneRtxAccepted(codecs: seq<CodecParameters>, n: nat, caps: seq<Capability>, m: Mapping)
    requires WellPlaced(caps) && n < |codecs| && IsRtx(codecs[n].info)
    requires RtxAllAccepted(codecs, n, caps) && Describes(codecs, n, caps, m)
    ensures MapOneRtx(m, codecs[n], codecs, caps).Success? <==> RtxAccepted(codecs, n, caps)
    ensures RtxAccepted(codecs, n, caps) ==>
      MapOneRtx(m, codecs[n], codecs, caps)
        == Success(m[codecs[n].payloadType := RtxEntry(codecs, caps, codecs[n]).value.preferredPayloadType])
  {
    var c, apt := codecs[n], Apt(codecs[n].info);
    FindCodecMeaning(codecs, apt);
    LastOfMeaning(codecs[..n], apt, true);
    LastOfMeaning(codecs, apt, false);
    assert Target(codecs, n, caps, apt).Some? <==> apt in m;
    if RtxEntry(codecs, caps, c).Some? {
      SearchFinds(codecs, apt, false);
    }
    if apt !in m {
      NoSuchRtx(caps, 0);
    } else if LastOf(codecs[..n], apt, true).Some? {
      AcceptedEarlier(codecs, n, caps, apt);
      RtxEntryMeaning(codecs, caps, LastOf(codecs[..n], apt, true).value);
      NoSuchRtx(caps, m[apt]);
    }
  }

  lemma LastOfNext(codecs: seq<CodecParameters>, n: nat, pt: int)
    requires n < |codecs|
    ensures LastOf(codecs[..n + 1], pt, true)
      == if codecs[n].payloadType == pt && IsRtx(codecs[n].info) then Some(codecs[n]) else LastOf(codecs[..n], pt, true)
  {
    assert codecs[..n + 1][..n] == codecs[..n];
  }

  lemma DescribesNext(codecs: seq<CodecParameters>, n: nat, caps: seq<Capability>, m: Mapping, m': Mapping)
    requires n < |codecs| && Describes(codecs, n, caps, m)
    requires if IsRtx(codecs[n].info)
      then RtxAccepted(codecs, n, caps)
        && m' == m[codecs[n].payloadType := RtxEntry(codecs, caps, codecs[n]).value.preferredPayloadType]
      else m' == m
    ensures Describes(codecs, n + 1, caps, m')
  {
    forall pt: int
      ensures pt in m' <==> Target(codecs, n + 1, caps, pt).Some?
      ensures pt in m' ==> m'[pt] == Target(codecs, n + 1, caps, pt).value.preferredPayloadType
    {
      LastOfNext(codecs, n, pt);
      assert pt in m <==> Target(codecs, n, caps, pt).Some?;
    }
  }

  /**
   The second pass, whatever payload types repeat: it succeeds exactly when every RTX
   codec is accepted, and then maps every type to its target.
   */
  lemma {:induction false} MapRtxForm(codecs: seq<CodecParameters>, n: nat, caps: seq<Capability>)
    requires WellPlaced(caps) && n <= |codecs| && MediaMatch(codecs, caps)
    ensures MapRtx(codecs, n, caps).Success? <==> RtxAllAccepted(codecs, n, caps)
    ensures MapRtx(codecs, n, caps).Success? ==> Describes(codecs, n, caps, MapRtx(codecs, n, caps).value)
  {
    if n == 0 {
      MapMediaForm(codecs, caps);
      assert codecs[..0] == [];
    } else {
      MapRtxForm(codecs, n - 1, caps);
      if RtxAllAccepted(codecs, n - 1, caps) {
        MapRtxNext(codecs, n - 1, caps, MapRtx(codecs, n - 1, caps).value);
      } else {
        MapRtxFails(codecs, n - 1, n, caps);
      }
    }
  }

  lemma MapRtxNext(codecs: seq<CodecParameters>, n: nat, caps: seq<Capability>, m: Mapping)
    requires WellPlaced(caps) && n < |codecs| && MapRtx(codecs, n, caps) == Success(m)
    requires RtxAllAccepted(codecs, n, caps) && Describes(codecs, n, caps, m)
    ensures MapRtx(codecs, n + 1, caps).Success? <==> RtxAllAccepted(codecs, n + 1, caps)
    ensures MapRtx(codecs, n + 1, caps).Success? ==> Describes(codecs, n + 1, caps, MapRtx(codecs, n + 1, caps).value)
  {
    if IsRtx(codecs[n].info) {
      OneRtxAccepted(codecs, n, caps, m);
    }
    if MapRtx(codecs, n + 1, caps).Success? {
      DescribesNext(codecs, n, caps, m, MapRtx(codecs, n + 1, caps).value);
    }
  }

  /** What a producer must meet for its codecs to be mapped. */
  predicate Mappable(codecs: seq<CodecParameters>, caps: seq<Capability>) {
    MediaMatch(codecs, caps) && RtxAllAccepted(codecs, |codecs|, caps)
  }

  /**
   Which producers are accepted over a router's list, and the whole mapping they get:
   every type goes to its target, and nothing else has an entry.
   */
  lemma MappingDefined(codecs: seq<CodecParameters>, caps: seq<Capability>)
    requires WellPlaced(caps)
    ensures MapCodecs(codecs, caps).Success? <==> Mappable(codecs, caps)
    ensures MapCodecs(codecs, caps).Success? ==> Describes(codecs, |codecs|, caps, MapCodecs(codecs, caps).value)
  {
    MapMediaForm(codecs, caps);
    if MediaMatch(codecs, caps) {
      MapRtxForm(codecs, |codecs|, caps);
    } else {
      MapRtxFails(codecs, 0, |codecs|, caps);
    }
  }

  /** Entry `e` is the first one that the codec strictly matches. */
  predicate FirstMatch(c: CodecInfo, caps: seq<Capability>, e: nat) {
    e < |caps| && Matches(c, caps[e].info, true) && forall i :: 0 <= i < e ==> !Matches(c, caps[i].info, true)
  }

  /** The search finds an entry exactly when some entry matches, and then the first one that does. */
  lemma {:induction false} FindStrictFirst(c: CodecInfo, caps: seq<Capability>) returns (e: nat)
    ensures FindStrict(c, caps).Some? <==> exists cap :: cap in caps && Matches(c, cap.info, true)
    ensures FindStrict(c, caps).Some? ==> FirstMatch(c, caps, e) && FindStrict(c, caps) == Some(caps[e])
  {
    e := 0;
    if caps != [] {
      MatchIffSameKey(c, caps[0].info, true, true);
      MatchIffSameKey(c, caps[0].info, true, false);
      if !Matches(c, caps[0].info, true) {
        var rest := FindStrictFirst(c, caps[1..]);
        e := rest + 1;
        assert caps == [caps[0]] + caps[1..];
        if FindStrict(c, caps).Some? {
          forall i | 0 <= i < e ensures !Matches(c, caps[i].info, true) {
            assert i > 0 ==> caps[i] == caps[1..][i - 1];
          }
        }
      }
    }
  }

  lemma FirstMatchUnique(c: CodecInfo, caps: seq<Capability>, e: nat)
    requires FirstMatch(c, caps, e)
    ensures FindStrict(c, caps) == Some(caps[e])
  {
    var k := FindStrictFirst(c, caps);
    assert caps[e] in caps;
    assert k == e;
  }

  /** Codec `d` is the last one of its sort that has the payload type. */
  predicate LastCodec(codecs: seq<CodecParameters>, d: nat, pt: int, rtx: bool) {
    && d < |codecs| && codecs[d].payloadType == pt && IsRtx(codecs[d].info) == rtx
    && forall j :: d < j < |codecs| ==> codecs[j].payloadType != pt || IsRtx(codecs[j].info) != rtx
  }

  lemma {:induction false} LastOfIsLast(codecs: seq<CodecParameters>, pt: int, rtx: bool) returns (d: nat)
    ensures LastOf(codecs, pt, rtx).Some? ==>
      LastCodec(codecs, d, pt, rtx) && LastOf(codecs, pt, rtx) == Some(codecs[d])
  {
    d := 0;
    if codecs != [] {
      var last := codecs[|codecs| - 1];
      if last.payloadType == pt && IsRtx(last.info) == rtx {
        d := |codecs| - 1;
      } else {
        d := LastOfIsLast(codecs[..|codecs| - 1], pt, rtx);
      }
    }
  }

  lemma LastCodecUnique(codecs: seq<CodecParameters>, d: nat, pt: int, rtx: bool)
    requires LastCodec(codecs, d, pt, rtx)
    ensures LastOf(codecs, pt, rtx) == Some(codecs[d])
  {
    assert codecs[d] in codecs;
    LastOfMeaning(codecs, pt, rtx);
    var k := LastOfIsLast(codecs, pt, rtx);
    assert k == d;
  }

  /** Codec `d` is the last media codec with the payload type, and entry `e` the first that it matches. */
  predicate MediaAt(codecs: seq<CodecParameters>, caps: seq<Capability>, pt: int, d: nat, e: nat) {
    LastCodec(codecs, d, pt, false) && FirstMatch(codecs[d].info, caps, e)
  }

  lemma MediaEntryMeaning(codecs: seq<CodecParameters>, caps: seq<Capability>, pt: int) returns (d: nat, e: nat)
    ensures MediaEntry(codecs, caps, pt).Some? ==>
      MediaAt(codecs, caps, pt, d, e) && MediaEntry(codecs, caps, pt) == Some(caps[e])
  {
    d := LastOfIsLast(codecs, pt, false);
    e := 0;
    if MediaEntry(codecs, caps, pt).Some? {
      e := FindStrictFirst(codecs[d].info, caps);
    }
  }

  lemma MediaAtUnique(codecs: seq<CodecParameters>, caps: seq<Capability>, pt: int, d: nat, e: nat)
    requires MediaAt(codecs, caps, pt, d, e)
    ensures MediaEntry(codecs, caps, pt) == Some(caps[e]) && !IsRtx(caps[e].info)
  {
    LastCodecUnique(codecs, d, pt, false);
    FirstMatchUnique(codecs[d].info, caps, e);
    FindStrictMeaning(codecs[d].info, caps);
  }

  /** A search for an RTX entry finds one exactly when there is one. */
  lemma {:induction false} LastRtxFound(caps: seq<Capability>, pt: int)
    ensures LastRtx(caps, pt).Some? <==> exists x :: x in caps && IsRtxFor(x, pt)
  {
    if caps != [] {
      LastRtxFound(caps[..|caps| - 1], pt);
      assert caps == caps[..|caps| - 1] + [caps[|caps| - 1]];
    }
  }

  /** In a router's list the media entries that have an RTX entry are the video ones, and it is the next entry. */
  lemma VideoHasRtx(caps: seq<Capability>, e: nat)
    requires WellPlaced(caps) && e < |caps| && !IsRtx(caps[e].info)
    ensures var pt := caps[e].preferredPayloadType;
      && (LastRtx(caps, pt).Some? <==> caps[e].kind == "video")
      && (caps[e].kind == "video" ==> e + 1 < |caps| && LastRtx(caps, pt) == Some(caps[e + 1]))
  {
    var pt := caps[e].preferredPayloadType;
    LastRtxMeaning(caps, pt);
    LastRtxFound(caps, pt);
    if caps[e].kind == "video" {
      assert caps[e + 1] in caps && IsRtxFor(caps[e + 1], pt);
      AptNamesMedia(caps, caps[e + 1]);
    }
    if LastRtx(caps, pt).Some? {
      var i :| 0 <= i < |caps| && caps[i] == LastRtx(caps, pt).value;
      assert caps[i - 1].preferredPayloadType == pt;
      assert i - 1 == e;
    }
  }

  lemma RtxEntryAt(codecs: seq<CodecParameters>, caps: seq<Capability>, c: CodecParameters, d: nat, e: nat)
    requires WellPlaced(caps) && MediaAt(codecs, caps, Apt(c.info), d, e)
    ensures RtxEntry(codecs, caps, c).Some? <==> caps[e].kind == "video"
    ensures caps[e].kind == "video" ==> e + 1 < |caps| && RtxEntry(codecs, caps, c) == Some(caps[e + 1])
  {
    MediaAtUnique(codecs, caps, Apt(c.info), d, e);
    VideoHasRtx(caps, e);
  }

  /**
   Why RTX codec `i` is accepted: its apt is the type of a media codec that is mapped to
   a video entry, and no earlier RTX codec has that type.
   */
  ghost predicate RtxOk(codecs: seq<CodecParameters>, i: nat, caps: seq<Capability>)
    requires i < |codecs|
  {
    && (exists d: nat, e: nat :: MediaAt(codecs, caps, Apt(codecs[i].info), d, e) && caps[e].kind == "video")
    && (forall j :: 0 <= j < i && IsRtx(codecs[j].info) ==> codecs[j].payloadType != Apt(codecs[i].info))
  }

  /** What a producer must meet: a match for every media codec, and acceptable RTX codecs. */
  ghost predicate Acceptable(codecs: seq<CodecParameters>, caps: seq<Capability>) {
    && (forall c :: c in codecs && !IsRtx(c.info) ==> exists cap :: cap in caps && Matches(c.info, cap.info, true))
    && (forall i :: 0 <= i < |codecs| && IsRtx(codecs[i].info) ==> RtxOk(codecs, i, caps))
  }

  lemma RtxAcceptedMeaning(codecs: seq<CodecParameters>, i: nat, caps: seq<Capability>)
    requires WellPlaced(caps) && i < |codecs|
    ensures RtxAccepted(codecs, i, caps) <==> RtxOk(codecs, i, caps)
  {
    var c, apt := codecs[i], Apt(codecs[i].info);
    if RtxEntry(codecs, caps, c).Some? {
      var d, e := MediaEntryMeaning(codecs, caps, apt);
      RtxEntryAt(codecs, caps, c, d, e);
    }
    if d: nat, e: nat :| MediaAt(codecs, caps, apt, d, e) && caps[e].kind == "video" {
      RtxEntryAt(codecs, caps, c, d, e);
    }
    if HasSort(codecs[..i], apt, true) {
      var r :| r in codecs[..i] && IsRtx(r.info) && r.payloadType == apt;
      var j :| 0 <= j < i && codecs[j] == r;
    }
    forall j | 0 <= j < i && IsRtx(codecs[j].info) && codecs[j].payloadType == apt
      ensures HasSort(codecs[..i], apt, true)
    {
      assert codecs[..i][j] == codecs[j];
    }
  }

  lemma AcceptableIffMappable(codecs: seq<CodecParameters>, caps: seq<Capability>)
    requires WellPlaced(caps)
    ensures Mappable(codecs, caps) <==> Acceptable(codecs, caps)
  {
    forall c | c in codecs && !IsRtx(c.info)
      ensures FindStrict(c.info, caps).Some? <==> exists cap :: cap in caps && Matches(c.info, cap.info, true)
    {
      var _ := FindStrictFirst(c.info, caps);
    }
    forall i | 0 <= i < |codecs| ensures RtxAccepted(codecs, i, caps) <==> RtxOk(codecs, i, caps) {
      RtxAcceptedMeaning(codecs, i, caps);
    }
  }

  /** Entry `e` is the one that the media codec named by RTX codec `r`'s apt is mapped to. */
  ghost predicate RtxAt(codecs: seq<CodecParameters>, caps: seq<Capability>, r: nat, e: nat) {
    r < |codecs| && exists d: nat :: MediaAt(codecs, caps, Apt(codecs[r].info), d, e)
  }

  /**
   What payload type `pt` is mapped to: if an RTX codec has it, to the RTX entry behind
   the entry of the media codec that the apt of the last such codec names; otherwise
   to the entry of the last media codec that has it.
   */
  ghost predicate MapsTo(codecs: seq<CodecParameters>, caps: seq<Capability>, pt: int, to: int) {
    if HasSort(codecs, pt, true) then
      exists r: nat, e: nat ::
        LastCodec(codecs, r, pt, true) && RtxAt(codecs, caps, r, e) && e + 1 < |caps|
        && to == caps[e + 1].preferredPayloadType
    else
      exists d: nat, e: nat :: MediaAt(codecs, caps, pt, d, e) && to == caps[e].preferredPayloadType
  }

  /**
   Which producers are accepted over a router's list, and the whole mapping they get,
   whatever payload types repeat, in terms of the two lists alone.
   */
  lemma MappingSpelledOut(codecs: seq<CodecParameters>, caps: seq<Capability>)
    requires WellPlaced(caps)
    ensures MapCodecs(codecs, caps).Success? <==> Acceptable(codecs, caps)
    ensures MapCodecs(codecs, caps).Success? ==>
      var m := MapCodecs(codecs, caps).value;
      forall pt: int ::
        && (pt in m <==> exists c :: c in codecs && c.payloadType == pt)
        && (pt in m ==> MapsTo(codecs, caps, pt, m[pt]))
  {
    MappingDefined(codecs, caps);
    AcceptableIffMappable(codecs, caps);
    if MapCodecs(codecs, caps).Success? {
      var m := MapCodecs(codecs, caps).value;
      forall pt: int
        ensures pt in m <==> exists c :: c in codecs && c.payloadType == pt
        ensures pt in m ==> MapsTo(codecs, caps, pt, m[pt])
      {
        MappingDomain(codecs, caps, pt);
        if pt in m {
          TypeMapsTo(codecs, caps, pt);
        }
      }
    }
  }

  lemma TypeMapsTo(codecs: seq<CodecParameters>, caps: seq<Capability>, pt: int)
    requires WellPlaced(caps) && MapCodecs(codecs, caps).Success? && pt in MapCodecs(codecs, caps).value
    ensures MapsTo(codecs, caps, pt, MapCodecs(codecs, caps).value[pt])
  {
    TypeGoes(codecs, caps, pt);
    if HasSort(codecs, pt, true) {
      var r := LastOfIsLast(codecs, pt, true);
      var d, e := MediaEntryMeaning(codecs, caps, Apt(codecs[r].info));
      RtxEntryAt(codecs, caps, codecs[r], d, e);
      assert RtxAt(codecs, caps, r, e);
    } else {
      var d, e := MediaEntryMeaning(codecs, caps, pt);
    }
  }

  /**
   Over a router's list, an RTX codec gets an entry only if its apt is the type of a
   media codec that has an entry by then; so the default entry is never used.
   */
  lemma AptMustNameMedia(codecs: seq<CodecParameters>, n: nat, caps: seq<Capability>)
    requires WellPlaced(caps) && n < |codecs| && IsRtx(codecs[n].info) && MapRtx(codecs, n + 1, caps).Success?
    ensures MapRtx(codecs, n, caps).Success? && Apt(codecs[n].info) in MapRtx(codecs, n, caps).value
    ensures HasSort(codecs, Apt(codecs[n].info), false)
  {
    MapMediaForm(codecs, caps);
    if !MediaMatch(codecs, caps) {
      MapRtxFails(codecs, 0, n + 1, caps);
    }
    MapRtxForm(codecs, n, caps);
    MapRtxForm(codecs, n + 1, caps);
    assert RtxAccepted(codecs, n, caps);
    var m, apt := MapRtx(codecs, n, caps).value, Apt(codecs[n].info);
    RtxEntryMeaning(codecs, caps, codecs[n]);
    LastOfMeaning(codecs[..n], apt, true);
    assert Target(codecs, n, caps, apt).Some? <==> apt in m;
  }

  /** No RTX codec has the payload type of a media codec. */
  predicate NoClash(codecs: seq<CodecParameters>) {
    forall c, d :: c in codecs && d in codecs && IsRtx(c.info) && !IsRtx(d.info) ==> c.payloadType != d.payloadType
  }

  /** A media entry that is the first to match itself; no media codec is ever mapped to another one. */
  predicate Leading(caps: seq<Capability>, cap: Capability) {
    !IsRtx(cap.info) && FindStrict(cap.info, caps) == Some(cap)
  }

  /** The payload type is mapped to an entry of the router: a leading media entry, or an RTX entry. */
  ghost predicate Targets(caps: seq<Capability>, m: Mapping, pt: int, rtx: bool) {
    pt in m && exists cap ::
      cap in caps && (if rtx then IsRtx(cap.info) else Leading(caps, cap)) && m[pt] == cap.preferredPayloadType
  }

  /** What a codec is mapped to depends on its key only. */
  lemma {:induction false} SameKeySameEntry(c: CodecInfo, d: CodecInfo, caps: seq<Capability>)
    requires CodecKey(c, true) == CodecKey(d, true)
    ensures FindStrict(c, caps) == FindStrict(d, caps)
  {
    if caps != [] {
      MatchIffSameKey(c, caps[0].info, true, true);
      MatchIffSameKey(d, caps[0].info, true, true);
      SameKeySameEntry(c, d, caps[1..]);
    }
  }

  lemma FoundLeads(c: CodecInfo, caps: seq<Capability>)
    requires !IsRtx(c) && FindStrict(c, caps).Some?
    ensures FindStrict(c, caps).value in caps && Leading(caps, FindStrict(c, caps).value)
  {
    var cap := FindStrict(c, caps).value;
    FindStrictMeaning(c, caps);
    MatchIffSameKey(c, cap.info, true, false);
    SameKeySameEntry(c, cap.info, caps);
  }

  lemma SameEntry(caps: seq<Capability>, x: Capability, y: Capability)
    requires WellPlaced(caps) && x in caps && y in caps && x.preferredPayloadType == y.preferredPayloadType
    ensures x == y
  {
    var i :| 0 <= i < |caps| && caps[i] == x;
    var j :| 0 <= j < |caps| && caps[j] == y;
    assert i == j;
  }

  /** Where one payload type of the producer goes: to an RTX entry if an RTX codec has it, else to a media entry. */
  lemma TypeGoes(codecs: seq<CodecParameters>, caps: seq<Capability>, pt: int)
    requires WellPlaced(caps) && MapCodecs(codecs, caps).Success?
    ensures var m := MapCodecs(codecs, caps).value;
      if HasSort(codecs, pt, true) then
        && Targets(caps, m, pt, true) && LastOf(codecs, pt, true).Some?
        && RtxEntry(codecs, caps, LastOf(codecs, pt, true).value).Some?
        && m[pt] == RtxEntry(codecs, caps, LastOf(codecs, pt, true).value).value.preferredPayloadType
      else if HasSort(codecs, pt, false) then
        && Targets(caps, m, pt, false) && MediaEntry(codecs, caps, pt).Some?
        && m[pt] == MediaEntry(codecs, caps, pt).value.preferredPayloadType
      else pt !in m
  {
    var m := MapCodecs(codecs, caps).value;
    MappingDefined(codecs, caps);
    assert codecs[..|codecs|] == codecs;
    LastOfMeaning(codecs, pt, true);
    LastOfMeaning(codecs, pt, false);
    assert pt in m <==> Target(codecs, |codecs|, caps, pt).Some?;
    if HasSort(codecs, pt, true) {
      AcceptedEarlier(codecs, |codecs|, caps, pt);
      RtxEntryMeaning(codecs, caps, LastOf(codecs, pt, true).value);
    } else if HasSort(codecs, pt, false) {
      FoundLeads(LastOf(codecs, pt, false).value.info, caps);
    }
  }

  lemma SortsDiffer(caps: seq<Capability>, x: Capability, y: Capability)
    requires WellPlaced(caps) && x in caps && y in caps && IsRtx(x.info) && !IsRtx(y.info)
    ensures x.preferredPayloadType != y.preferredPayloadType
  {
    var i :| 0 <= i < |caps| && caps[i] == x;
    var j :| 0 <= j < |caps| && caps[j] == y;
    assert i != j;
  }

  lemma NotBoth(caps: seq<Capability>, m: Mapping, pt: int)
    requires WellPlaced(caps) && Targets(caps, m, pt, true)
    ensures !Targets(caps, m, pt, false)
  {
    var x :| x in caps && IsRtx(x.info) && m[pt] == x.preferredPayloadType;
    forall y | y in caps && Leading(caps, y) ensures m[pt] != y.preferredPayloadType {
      SortsDiffer(caps, x, y);
    }
  }

  /**
   Whatever payload types repeat: over a router's list every media codec is mapped to
   a media entry exactly when no RTX codec has a media codec's type.
   */
  lemma MediaStaysMedia(codecs: seq<CodecParameters>, caps: seq<Capability>)
    requires WellPlaced(caps) && MapCodecs(codecs, caps).Success?
    ensures var m := MapCodecs(codecs, caps).value;
      (forall c :: c in codecs && !IsRtx(c.info) ==> Targets(caps, m, c.payloadType, false)) <==> NoClash(codecs)
  {
    var m := MapCodecs(codecs, caps).value;
    forall c | c in codecs && !IsRtx(c.info)
      ensures Targets(caps, m, c.payloadType, false) <==> !HasSort(codecs, c.payloadType, true)
    {
      assert HasSort(codecs, c.payloadType, false);
      TypeGoes(codecs, caps, c.payloadType);
      if HasSort(codecs, c.payloadType, true) {
        NotBoth(caps, m, c.payloadType);
      }
    }
    forall c, d | c in codecs && d in codecs && IsRtx(c.info) && !IsRtx(d.info) && c.payloadType == d.payloadType
      ensures HasSort(codecs, d.payloadType, true)
    {
    }
  }

  /** A media codec goes to the first entry that it strictly matches, which is a media entry. */
  ghost predicate MediaToMedia(caps: seq<Capability>, m: Mapping, c: CodecParameters) {
    && c.payloadType in m
    && var cap := FindStrict(c.info, caps);
    && cap.Some? && cap.value in caps && !IsRtx(cap.value.info) && Matches(c.info, cap.value.info, true)
    && m[c.payloadType] == cap.value.preferredPayloadType
  }

  /** An RTX codec's apt names a media codec, and it goes to an RTX entry whose apt is the mapped apt. */
  ghost predicate RtxToRtx(codecs: seq<CodecParameters>, caps: seq<Capability>, m: Mapping, c: CodecParameters) {
    && c.payloadType in m && Apt(c.info) in m && HasSort(codecs, Apt(c.info), false)
    && exists rtx :: rtx in caps && IsRtx(rtx.info) && m[c.payloadType] == rtx.preferredPayloadType
                     && Apt(rtx.info) == m[Apt(c.info)]
  }

  /** Codecs that share a payload type are of one sort and call for the same entry. */
  ghost predicate Consistent(codecs: seq<CodecParameters>, caps: seq<Capability>) {
    NoClash(codecs) && forall c, d ::
      c in codecs && d in codecs && c.payloadType == d.payloadType ==> Agree(codecs, caps, c, d)
  }

  predicate Agree(codecs: seq<CodecParameters>, caps: seq<Capability>, c: CodecParameters, d: CodecParameters) {
    && (!IsRtx(c.info) && !IsRtx(d.info) ==> FindStrict(c.info, caps) == FindStrict(d.info, caps))
    && (IsRtx(c.info) && IsRtx(d.info) ==>
          MediaEntry(codecs, caps, Apt(c.info)) == MediaEntry(codecs, caps, Apt(d.info)))
  }

  predicate DistinctTypes(codecs: seq<CodecParameters>) {
    forall i, j :: 0 <= i < j < |codecs| ==> codecs[i].payloadType != codecs[j].payloadType
  }

  lemma DistinctIsConsistent(codecs: seq<CodecParameters>, caps: seq<Capability>)
    requires DistinctTypes(codecs)
    ensures Consistent(codecs, caps)
  {
    forall c, d | c in codecs && d in codecs && c.payloadType == d.payloadType ensures c == d {
      var i :| 0 <= i < |codecs| && codecs[i] == c;
      var j :| 0 <= j < |codecs| && codecs[j] == d;
      assert i == j;
    }
  }

  ghost predicate GoesRight(codecs: seq<CodecParameters>, caps: seq<Capability>, m: Mapping, c: CodecParameters) {
    if IsRtx(c.info) then RtxToRtx(codecs, caps, m, c) else MediaToMedia(caps, m, c)
  }

  /** The mapping is defined on exactly the producer's payload types. */
  lemma MappingDomain(codecs: seq<CodecParameters>, caps: seq<Capability>, pt: int)
    requires WellPlaced(caps) && MapCodecs(codecs, caps).Success?
    ensures pt in MapCodecs(codecs, caps).value <==> exists c :: c in codecs && c.payloadType == pt
  {
    TypeGoes(codecs, caps, pt);
    if c :| c in codecs && c.payloadType == pt {
      assert HasSort(codecs, pt, IsRtx(c.info));
    }
  }

  lemma AcceptedApt(codecs: seq<CodecParameters>, caps: seq<Capability>, c: CodecParameters)
    requires WellPlaced(caps) && MapCodecs(codecs, caps).Success? && c in codecs && IsRtx(c.info)
    ensures RtxEntry(codecs, caps, c).Some? && HasSort(codecs, Apt(c.info), false)
  {
    MappingDefined(codecs, caps);
    var i :| 0 <= i < |codecs| && codecs[i] == c;
    assert RtxAccepted(codecs, i, caps);
    RtxEntryMeaning(codecs, caps, c);
  }

  /** The mapped apt of an RTX codec is the entry of the media codec that the apt names. */
  lemma MappedApt(codecs: seq<CodecParameters>, caps: seq<Capability>, c: CodecParameters)
    requires WellPlaced(caps) && MapCodecs(codecs, caps).Success? && NoClash(codecs) && c in codecs && IsRtx(c.info)
    ensures var m, apt := MapCodecs(codecs, caps).value, Apt(c.info);
      && apt in m && MediaEntry(codecs, caps, apt).Some? && MediaEntry(codecs, caps, apt).value in caps
      && m[apt] == MediaEntry(codecs, caps, apt).value.preferredPayloadType && HasSort(codecs, apt, false)
  {
    var apt := Apt(c.info);
    AcceptedApt(codecs, caps, c);
    TypeGoes(codecs, caps, apt);
    LastOfMeaning(codecs, apt, false);
    FoundLeads(LastOf(codecs, apt, false).value.info, caps);
  }

  lemma ConsistentGoesRight(codecs: seq<CodecParameters>, caps: seq<Capability>, c: CodecParameters)
    requires WellPlaced(caps) && MapCodecs(codecs, caps).Success? && Consistent(codecs, caps) && c in codecs
    ensures GoesRight(codecs, caps, MapCodecs(codecs, caps).value, c)
  {
    var rtx := IsRtx(c.info);
    assert HasSort(codecs, c.payloadType, rtx);
    TypeGoes(codecs, caps, c.payloadType);
    LastOfMeaning(codecs, c.payloadType, rtx);
    var last := LastOf(codecs, c.payloadType, rtx).value;
    assert Agree(codecs, caps, c, last);
    if rtx {
      MappedApt(codecs, caps, c);
      RtxEntryMeaning(codecs, caps, last);
    } else {
      FindStrictMeaning(c.info, caps);
    }
  }

  lemma GoesRightAgrees(codecs: seq<CodecParameters>, caps: seq<Capability>, c: CodecParameters, d: CodecParameters)
    requires WellPlaced(caps) && MapCodecs(codecs, caps).Success? && NoClash(codecs)
    requires c in codecs && d in codecs && c.payloadType == d.payloadType
    requires var m := MapCodecs(codecs, caps).value; GoesRight(codecs, caps, m, c) && GoesRight(codecs, caps, m, d)
    ensures Agree(codecs, caps, c, d)
  {
    var m := MapCodecs(codecs, caps).value;
    if IsRtx(c.info) && IsRtx(d.info) {
      var x :| x in caps && IsRtx(x.info) && m[c.payloadType] == x.preferredPayloadType
        && Apt(x.info) == m[Apt(c.info)];
      var y :| y in caps && IsRtx(y.info) && m[d.payloadType] == y.preferredPayloadType
        && Apt(y.info) == m[Apt(d.info)];
      SameEntry(caps, x, y);
      MappedApt(codecs, caps, c);
      MappedApt(codecs, caps, d);
      SameEntry(caps, MediaEntry(codecs, caps, Apt(c.info)).value, MediaEntry(codecs, caps, Apt(d.info)).value);
    } else if !IsRtx(c.info) && !IsRtx(d.info) {
      SameEntry(caps, FindStrict(c.info, caps).value, FindStrict(d.info, caps).value);
    }
  }

  /**
   When a successful mapping over a router's list sends every media codec to the first
   entry it matches, every RTX codec to an RTX entry, and commutes with apt: exactly
   when codecs that share a payload type are of one sort and call for the same entry.
   Distinct payload types are enough.
   */
  lemma MappingMeaning(codecs: seq<CodecParameters>, caps: seq<Capability>)
    requires WellPlaced(caps) && MapCodecs(codecs, caps).Success?
    ensures var m := MapCodecs(codecs, caps).value;
      && (forall pt: int :: pt in m <==> exists c :: c in codecs && c.payloadType == pt)
      && ((forall c :: c in codecs ==> GoesRight(codecs, caps, m, c)) <==> Consistent(codecs, caps))
    ensures DistinctTypes(codecs) ==> Consistent(codecs, caps)
  {
    var m := MapCodecs(codecs, caps).value;
    forall pt: int ensures pt in m <==> exists c :: c in codecs && c.payloadType == pt {
      MappingDomain(codecs, caps, pt);
    }
    if DistinctTypes(codecs) {
      DistinctIsConsistent(codecs, caps);
    }
    if Consistent(codecs, caps) {
      forall c | c in codecs ensures GoesRight(codecs, caps, m, c) {
        ConsistentGoesRight(codecs, caps, c);
      }
    }
    if forall c :: c in codecs ==> GoesRight(codecs, caps, m, c) {
      forall c | c in codecs && !IsRtx(c.info) ensures Targets(caps, m, c.payloadType, false) {
        assert GoesRight(codecs, caps, m, c);
        FoundLeads(c.info, caps);
      }
      MediaStaysMedia(codecs, caps);
      forall c, d | c in codecs && d in codecs && c.payloadType == d.payloadType ensures Agree(codecs, caps, c, d) {
        GoesRightAgrees(codecs, caps, c, d);
      }
    }
  }

  function Lookup(m: Mapping, c: CodecParameters): int {
    if c.payloadType in m then m[c.payloadType] else 0
  }

  ghost predicate Injective(codecs: seq<CodecParameters>, m: Mapping) {
    forall c, d :: c in codecs && d in codecs && Lookup(m, c) == Lookup(m, d) ==> c == d
  }

  ghost predicate InjectiveOnMedia(codecs: seq<CodecParameters>, m: Mapping) {
    forall c, d ::
      c in codecs && d in codecs && !IsRtx(c.info) && !IsRtx(d.info) && Lookup(m, c) == Lookup(m, d) ==> c == d
  }

  predicate AptsDiffer(codecs: seq<CodecParameters>) {
    forall c, d :: c in codecs && d in codecs && IsRtx(c.info) && IsRtx(d.info) && Apt(c.info) == Apt(d.info) ==> c == d
  }

  /**
   Two codecs of different sorts never share a router payload type; two RTX codecs
   share one exactly when their mapped apts agree.
   */
  lemma PairMapping(codecs: seq<CodecParameters>, caps: seq<Capability>, c: CodecParameters, d: CodecParameters)
    requires WellPlaced(caps) && Consistent(codecs, caps) && MapCodecs(codecs, caps).Success?
    requires c in codecs && d in codecs && IsRtx(c.info)
    ensures var m := MapCodecs(codecs, caps).value;
      if IsRtx(d.info)
      then Apt(c.info) in m && Apt(d.info) in m && (Lookup(m, c) == Lookup(m, d) <==> m[Apt(c.info)] == m[Apt(d.info)])
      else Lookup(m, c) != Lookup(m, d)
  {
    var m := MapCodecs(codecs, caps).value;
    ConsistentGoesRight(codecs, caps, c);
    ConsistentGoesRight(codecs, caps, d);
    var x :| x in caps && IsRtx(x.info) && m[c.payloadType] == x.preferredPayloadType
      && Apt(x.info) == m[Apt(c.info)];
    if IsRtx(d.info) {
      var y :| y in caps && IsRtx(y.info) && m[d.payloadType] == y.preferredPayloadType
        && Apt(y.info) == m[Apt(d.info)];
      AptNamesMedia(caps, x);
      if x.preferredPayloadType == y.preferredPayloadType {
        SameEntry(caps, x, y);
      }
    } else {
      var y := FindStrict(d.info, caps).value;
      if x.preferredPayloadType == y.preferredPayloadType {
        SameEntry(caps, x, y);
      }
    }
  }

  /** With media codecs mapped injectively, whatever shares an RTX codec's target is an RTX codec with the same apt. */
  lemma SharedRtx(codecs: seq<CodecParameters>, caps: seq<Capability>, c: CodecParameters, d: CodecParameters)
    requires WellPlaced(caps) && Consistent(codecs, caps) && MapCodecs(codecs, caps).Success?
    requires c in codecs && d in codecs && IsRtx(c.info)
    requires var m := MapCodecs(codecs, caps).value; InjectiveOnMedia(codecs, m) && Lookup(m, c) == Lookup(m, d)
    ensures IsRtx(d.info) && Apt(c.info) == Apt(d.info)
  {
    var m := MapCodecs(codecs, caps).value;
    PairMapping(codecs, caps, c, d);
    AcceptedApt(codecs, caps, c);
    AcceptedApt(codecs, caps, d);
    var a :| a in codecs && !IsRtx(a.info) && a.payloadType == Apt(c.info);
    var b :| b in codecs && !IsRtx(b.info) && b.payloadType == Apt(d.info);
    assert Lookup(m, a) == Lookup(m, b);
  }

  /** The mapping is injective exactly when it is injective on media codecs and no two RTX codecs share an apt. */
  lemma MappingInjective(codecs: seq<CodecParameters>, caps: seq<Capability>)
    requires WellPlaced(caps) && Consistent(codecs, caps) && MapCodecs(codecs, caps).Success?
    ensures var m := MapCodecs(codecs, caps).value;
      Injective(codecs, m) <==> InjectiveOnMedia(codecs, m) && AptsDiffer(codecs)
  {
    var m := MapCodecs(codecs, caps).value;
    if InjectiveOnMedia(codecs, m) && AptsDiffer(codecs) {
      forall c, d | c in codecs && d in codecs && Lookup(m, c) == Lookup(m, d) ensures c == d {
        if IsRtx(c.info) {
          SharedRtx(codecs, caps, c, d);
        } else if IsRtx(d.info) {
          SharedRtx(codecs, caps, d, c);
        }
      }
    }
    if Injective(codecs, m) {
      forall c, d | c in codecs && d in codecs && IsRtx(c.info) && IsRtx(d.info) && Apt(c.info) == Apt(d.info)
        ensures c == d
      {
        PairMapping(codecs, caps, c, d);
      }
    }
  }

  lemma MapMediaFails(codecs: seq<CodecParameters>, n: nat, caps: seq<Capability>)
    requires n <= |codecs| && MapMedia(codecs[..n], caps).Failure?
    ensures MapMedia(codecs, caps).Failure?
    decreases |codecs|
  {
    if n < |codecs| {
      assert codecs[..|codecs| - 1][..n] == codecs[..n];
      MapMediaFails(codecs[..|codecs| - 1], n, caps);
    } else {
      assert codecs[..n] == codecs;
    }
  }

  lemma MapRtxFails(codecs: seq<CodecParameters>, n: nat, k: nat, caps: seq<Capability>)
    requires n <= k <= |codecs| && MapRtx(codecs, n, caps).Failure?
    ensures MapRtx(codecs, k, caps).Failure?
  {
    if n < k {
      MapRtxFails(codecs, n, k - 1, caps);
    }
  }

  method SearchCapability(c: CodecInfo, caps: seq<Capability>) returns (r: Option<Capability>)
    ensures r == FindStrict(c, caps)
  {
    var i := 0;
    while i < |caps|
      invariant 0 <= i <= |caps| && FindStrict(c, caps) == FindStrict(c, caps[i..])
    {
      if MatchCodecs(c, caps[i].info, true, true).0 {
        return Some(caps[i]);
      }
      i := i + 1;
    }
    r := None;
  }

  method SearchCodec(codecs: seq<CodecParameters>, pt: int) returns (r: Option<CodecParameters>)
    ensures r == FindCodec(codecs, pt)
  {
    var i := 0;
    while i < |codecs|
      invariant 0 <= i <= |codecs| && FindCodec(codecs, pt) == FindCodec(codecs[i..], pt)
    {
      if codecs[i].payloadType == pt {
        return Some(codecs[i]);
      }
      i := i + 1;
    }
    r := None;
  }

  /** Scans to the end of the list, so that the last RTX entry with the apt is kept. */
  method SearchLastRtx(caps: seq<Capability>, pt: int) returns (r: Option<Capability>)
    ensures r == LastRtx(caps, pt)
  {
    r := None;
    var i := 0;
    while i < |caps|
      invariant 0 <= i <= |caps| && r == LastRtx(caps[..i], pt)
    {
      assert caps[..i + 1][..i] == caps[..i];
      if IsRtxFor(caps[i], pt) {
        r := Some(caps[i]);
      }
      i := i + 1;
    }
    assert caps[..i] == caps;
  }

  /** The first pass: media codecs. */
  method MapMediaCodecs(codecs: seq<CodecParameters>, caps: seq<Capability>) returns (r: Result<Mapping>)
    ensures r == MapMedia(codecs, caps)
  {
    var m: Mapping := map[];
    var i := 0;
    while i < |codecs|
      invariant 0 <= i <= |codecs| && MapMedia(codecs[..i], caps) == Success(m)
    {
      assert codecs[..i + 1][..i] == codecs[..i];
      if !IsRtx(codecs[i].info) {
        var cap := SearchCapability(codecs[i].info, caps);
        if cap.None? {
          MapMediaFails(codecs, i + 1, caps);
          return Failure;
        }
        m := m[codecs[i].payloadType := cap.value.preferredPayloadType];
      }
      i := i + 1;
    }
    assert codecs[..i] == codecs;
    r := Success(m);
  }

  /** The second pass: RTX codecs. */
  method MapRtxCodecs(codecs: seq<CodecParameters>, caps: seq<Capability>, entries: Mapping)
    returns (r: Result<Mapping>)
    requires MapMedia(codecs, caps) == Success(entries)
    ensures r == MapRtx(codecs, |codecs|, caps)
  {
    var m := entries;
    var i := 0;
    while i < |codecs|
      invariant 0 <= i <= |codecs| && MapRtx(codecs, i, caps) == Success(m)
    {
      if IsRtx(codecs[i].info) {
        var media := SearchCodec(codecs, Apt(codecs[i].info));
        if media.None? {
          MapRtxFails(codecs, i + 1, |codecs|, caps);
          return Failure;
        }
        if media.value.payloadType !in m {
          m := m[media.value.payloadType := 0];
        }
        var rtx := SearchLastRtx(caps, m[media.value.payloadType]);
        if rtx.None? {
          MapRtxFails(codecs, i + 1, |codecs|, caps);
          return Failure;
        }
        m := m[codecs[i].payloadType := rtx.value.preferredPayloadType];
      }
      i := i + 1;
    }
    r := Success(m);
  }

  /** The two passes over the producer's codecs. */
  method GetProducerRtpParametersMapping(codecs: seq<CodecParameters>, caps: seq<Capability>)
    returns (r: Result<Mapping>)
    ensures r == MapCodecs(codecs, caps)
    ensures WellPlaced(caps) ==> (r.Success? <==> Acceptable(codecs, caps))
  {
    if WellPlaced(caps) {
      MappingSpelledOut(codecs, caps);
    }
    var media := MapMediaCodecs(codecs, caps);
    if media.Failure? {
      MapRtxFails(codecs, 0, |codecs|, caps);
      return Failure;
    }
    r := MapRtxCodecs(codecs, caps, media.value);
  }
}
