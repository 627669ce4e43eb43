/**
 Concrete negotiations in which the router's answers are wrong. Each starts from a
 request and a producer, and follows the stages from there.
 */
module NegotiationExamples {
  import opened Common
  import opened Codecs
  import opened RouterCapabilities
  import opened ProducerMapping
  import opened ConsumerParameters
  import opened Negotiation

  function VideoInfo(mimeType: string, apt: int): CodecInfo {
    CodecInfo(mimeType, 90000, 0, if apt == 0 then map[] else map["apt" := Num(apt)])
  }

  function Vp8(): CodecInfo {
    VideoInfo("video/VP8", 0)
  }

  function Vp9(): CodecInfo {
    VideoInfo("video/VP9", 0)
  }

  function Rtx(apt: int): CodecInfo {
    VideoInfo("video/rtx", apt)
  }

  /** A router's entry for VP8 or VP9, which the table of supported codecs gives one channel. */
  function Entry(info: CodecInfo, pt: int32): Capability {
    Capability("video", info.(channels := 1), pt)
  }

  function RtxOf(media: int32, pt: int32): Capability {
    Capability("video", Rtx(media), pt)
  }

  lemma Sorts()
    ensures !IsRtx(Vp8()) && !IsRtx(Vp9()) && forall apt :: IsRtx(Rtx(apt))
    ensures MimeType(Vp8()) == "video/vp8" && MimeType(Vp9()) == "video/vp9"
    ensures forall apt :: MimeType(Rtx(apt)) == "video/rtx"
  {
    assert MimeType(Vp8()) == "video/vp8" && MimeType(Vp9()) == "video/vp9";
    forall apt ensures MimeType(Rtx(apt)) == "video/rtx" {
      assert MimeType(Rtx(apt)) == "video/rtx";
    }
  }

  lemma ValidVideo(info: CodecInfo)
    requires info == Vp8() || info == Vp9() || exists apt :: info == Rtx(apt)
    ensures Validates(info)
  {
    assert info.mimeType[..6] == "video/" && ToLower("video/") == "video/";
  }

  lemma {:induction false} FirstMatchFound(c: CodecInfo, table: seq<Capability>, k: nat)
    requires k < |table| && Matches(c, table[k].info, false)
    requires forall i :: 0 <= i < k ==> !Matches(c, table[i].info, false)
    ensures FindLoose(c, table) == Some(table[k])
  {
    if k > 0 {
      FirstMatchFound(c, table[1..], k - 1);
    }
  }

  lemma AudioOnly(c: CodecInfo, i: nat)
    requires i < 21 && MimeType(c) != "" && MimeType(c)[0] == 'v'
    ensures !Matches(c, Supported()[i].info, false)
  {
    var name := Supported()[i].info.mimeType;
    assert |name| > 0 && name[0] == 'a';
    assert MimeType(Supported()[i].info)[0] == 'a';
  }

  /** Which supported codec a request for VP8 or VP9 finds. */
  lemma VideoBase(media: Capability)
    requires media.info == Vp8() || media.info == Vp9()
    ensures Validates(media.info)
    ensures Base(media) == Some(Video(media.info.mimeType, 1, map[]))
  {
    ValidVideo(media.info);
    Sorts();
    var c, k := Normalized(media.info), if media.info == Vp8() then 21 else 22;
    forall i | 0 <= i < k ensures !Matches(c, Supported()[i].info, false) {
      if i < 21 {
        AudioOnly(c, i);
      } else {
        assert MimeType(Supported()[i].info) == MimeType(Vp8());
      }
    }
    assert MimeType(Supported()[k].info) == MimeType(media.info);
    FirstMatchFound(c, Supported(), k);
  }

  lemma {:induction false} NothingToRemove(free: seq<int32>, pt: int32)
    requires pt !in free
    ensures Remove(free, pt) == free
  {
    if free != [] {
      NothingToRemove(free[1..], pt);
    }
  }

  /** A video codec placed under a dynamic type, and one placed under a requested type that is not dynamic. */
  lemma PlaceDynamic(p: Placing, media: Capability, base: Capability)
    requires FreeListOk(p) && |p.free| >= 2 && media.preferredPayloadType == 0
    requires base == Video(media.info.mimeType, 1, map[]) && media.info.parameters == map[]
    requires media.info.clockRate == 90000 && media.info.channels == 0
    ensures Place(p, media, base)
         == Success(Placing(p.codecs + [Entry(media.info, p.free[0]), RtxOf(p.free[0], p.free[1])], p.free[2..]))
  {
    assert p.free[0] in p.free && p.free[0] != 0;
    PlacedVideo(media, base, p.free[0], p.free[1]);
    assert p.free[1..][1..] == p.free[2..];
  }

  lemma PlaceRequested(p: Placing, media: Capability, base: Capability)
    requires p.codecs == [] && |p.free| >= 1 && media.preferredPayloadType != 0 && media.preferredPayloadType !in p.free
    requires base == Video(media.info.mimeType, 1, map[]) && media.info.parameters == map[]
    requires media.info.clockRate == 90000 && media.info.channels == 0
    ensures var pt := media.preferredPayloadType;
      Place(p, media, base) == Success(Placing([Entry(media.info, pt), RtxOf(pt, p.free[0])], p.free[1..]))
  {
    NothingToRemove(p.free, media.preferredPayloadType);
    PlacedVideo(media, base, media.preferredPayloadType, p.free[0]);
    assert [] + [Entry(media.info, media.preferredPayloadType), RtxOf(media.preferredPayloadType, p.free[0])]
        == [Entry(media.info, media.preferredPayloadType), RtxOf(media.preferredPayloadType, p.free[0])];
  }

  lemma PlacedVideo(media: Capability, base: Capability, pt: int32, rtx: int32)
    requires base == Video(media.info.mimeType, 1, map[]) && media.info.parameters == map[]
    requires media.info.clockRate == 90000 && media.info.channels == 0 && pt != 0
    ensures Capability(base.kind, Merged(media, base), pt) == Entry(media.info, pt)
    ensures RtxFor(Entry(media.info, pt), rtx) == RtxOf(pt, rtx)
  {
    assert base.info.parameters + media.info.parameters == map[];
    assert "video" + "/rtx" == "video/rtx";
  }

  lemma FirstDynamic(free: seq<int32>)
    requires free == DYNAMIC_PAYLOAD_TYPES
    ensures |free| >= 4 && free[0] == 100 && free[1] == 101 && free[2] == 102 && free[3] == 103
  {
  }

  lemma NothingPlaced(none: seq<Capability>, p: Placing)
    requires none == [] && p == Placing([], DYNAMIC_PAYLOAD_TYPES)
    ensures PlaceAll(none) == Success(p) && FreeListOk(p) && p.codecs == []
  {
    PlaceAllShape(none);
  }

  lemma PlacedNext(media: seq<Capability>, last: Capability, p: Placing, base: Capability)
    requires PlaceAll(media) == Success(p) && Validates(last.info) && Base(last) == Some(base)
    ensures PlaceAll(media + [last]) == Place(p, last, base)
  {
    assert (media + [last])[..|media|] == media;
  }

  /** The router's list for one VP8 codec. */
  function Vp8List(pt: int32, rtx: int32): seq<Capability> {
    [Entry(Vp8(), pt), RtxOf(pt, rtx)]
  }

  lemma Vp8Router(media: Capability, p: Placing)
    requires media.info == Vp8() && p == Placing([], DYNAMIC_PAYLOAD_TYPES)
    requires media.preferredPayloadType == 0 || media.preferredPayloadType == 356
    ensures RouterCodecs([media])
         == Success(if media.preferredPayloadType == 0 then Vp8List(100, 101) else Vp8List(356, 100))
    ensures media.preferredPayloadType == 0 ==>
      PlaceAll([media]) == Success(Placing(Vp8List(100, 101), p.free[2..]))
  {
    VideoBase(media);
    FirstDynamic(p.free);
    NothingPlaced([], p);
    PlacedNext([], media, p, Base(media).value);
    assert [] + [media] == [media];
    if media.preferredPayloadType == 0 {
      PlaceDynamic(p, media, Base(media).value);
      assert [] + Vp8List(100, 101) == Vp8List(100, 101);
    } else {
      PlaceRequested(p, media, Base(media).value);
    }
  }

  lemma Vp8MatchesEntry(c: CodecInfo, pt: int32)
    requires c == Vp8()
    ensures MatchCodecs(c, Entry(Vp8(), pt).info, true, true).0 && !IsRtx(Entry(Vp8(), pt).info)
  {
    Sorts();
    assert MimeType(Entry(Vp8(), pt).info) == MimeType(Vp8());
  }

  lemma OfferVia(requested: seq<Capability>, producer: seq<CodecParameters>, caps: seq<Capability>, m: Mapping)
    requires RouterCodecs(requested) == Success(caps) && MapCodecs(producer, caps) == Success(m)
    ensures ProducerOffer(requested, producer) == Success(Consumable(producer, caps, m))
  {
  }

  lemma RtxApt(media: int32)
    ensures Apt(Rtx(media)) == media
  {
  }

  lemma MapVp8(c: CodecParameters, caps: seq<Capability>, pt: int32, rtx: int32)
    requires c.info == Vp8() && caps == Vp8List(pt, rtx)
    ensures MapMedia([c], caps) == Success(map[c.payloadType := pt])
    ensures MapCodecs([c], caps) == Success(map[c.payloadType := pt])
  {
    Vp8MatchesEntry(c.info, pt);
    Sorts();
    var codecs := [c];
    assert codecs[..0] == [];
    assert FindStrict(c.info, caps) == Some(caps[0]);
    assert MapMedia(codecs[..0], caps) == Success(map[]);
    assert MapRtx(codecs, 1, caps) == MapRtx(codecs, 0, caps) == MapMedia(codecs, caps);
  }

  /**
   A requested payload type beyond 8 bits breaks the agreement: a router asked for
   VP8 under type 356 accepts a VP8 producer, maps it to type 356, and offers it as
   type 100, which is the type of the router's RTX codec.
   */
  lemma NarrowingBreaksOffer(media: Capability, c: CodecParameters)
    requires media.info == Vp8() && media.preferredPayloadType == 356 && c.info == Vp8()
    ensures RouterCodecs([media]).Success? && ProducerOffer([media], [c]).Success?
    ensures var caps, offered := RouterCodecs([media]).value, ProducerOffer([media], [c]).value;
      && MapCodecs([c], caps) == Success(map[c.payloadType := 356])
      && offered != [] && offered[0].payloadType == 100 && !FromRouter(caps, offered[0])
  {
    Vp8Router(media, Placing([], DYNAMIC_PAYLOAD_TYPES));
    var caps, m: Mapping := RouterCodecs([media]).value, map[c.payloadType := 356];
    PlaceAllShape([media]);
    MapVp8(c, caps, 356, 100);
    OfferVia([media], [c], caps, m);
    WideOffer(c, caps, m);
  }

  lemma WideOffer(c: CodecParameters, caps: seq<Capability>, m: Mapping)
    requires caps == Vp8List(356, 100) && WellPlaced(caps) && c.info == Vp8() && Lookup(m, c) == 356
    ensures var offered := Consumable([c], caps, m);
      offered != [] && offered[0].payloadType == 100 && !FromRouter(caps, offered[0])
  {
    Vp8MatchesEntry(c.info, 356);
    var media := OfferedMedia(c, caps[0]);
    assert [c][..0] == [];
    assert FindCapability(caps, 356) == caps[0];
    assert Consumable([c], caps, m)[0] == media;
    OfferedSorts(c, caps[0]);
    Sorts();
  }

  /** A producer with one VP8 codec whose RTX codec has the same payload type. */
  function Clashing(pt: uint8): seq<CodecParameters> {
    [CodecParameters(Vp8(), pt), CodecParameters(Rtx(pt), pt)]
  }

  lemma Clashes(producer: seq<CodecParameters>, pt: uint8)
    requires producer == Clashing(pt)
    ensures !NoClash(producer)
  {
    Sorts();
    assert producer[0] in producer && producer[1] in producer;
  }

  /**
   A producer whose RTX codec has the payload type of its media codec is accepted. Its
   media codec is mapped to the router's RTX entry, so that the offer has no media.
   */
  lemma ClashIsAccepted(media: Capability, producer: seq<CodecParameters>, pt: uint8)
    requires media.info == Vp8() && media.preferredPayloadType == 0 && producer == Clashing(pt)
    ensures !NoClash(producer) && RouterCodecs([media]).Success? && ProducerOffer([media], producer).Success?
    ensures MapCodecs(producer, RouterCodecs([media]).value) == Success(map[pt := 101])
    ensures forall e :: e in ProducerOffer([media], producer).value ==> IsRtx(e.info)
  {
    Clashes(producer, pt);
    Vp8Router(media, Placing([], DYNAMIC_PAYLOAD_TYPES));
    var caps, m: Mapping := RouterCodecs([media]).value, map[pt := 101];
    ClashMapping(producer, caps, pt, 100, 101);
    OfferVia([media], producer, caps, m);
    Sorts();
    ClashOffer(producer, caps, m);
  }

  lemma ClashMapping(producer: seq<CodecParameters>, caps: seq<Capability>, pt: uint8, a: int32, b: int32)
    requires producer == Clashing(pt) && caps == Vp8List(a, b)
    ensures MapCodecs(producer, caps) == Success(map[pt := b])
  {
    Sorts();
    var c := producer[0];
    MapVp8(c, caps, a, b);
    RtxApt(pt);
    RtxApt(a);
    assert producer[..1] == [c];
    assert MapMedia(producer, caps) == MapMedia([c], caps);
    assert MapRtx(producer, 1, caps) == MapRtx(producer, 0, caps);
    var m: Mapping := map[pt := a];
    assert FindCodec(producer, pt) == Some(c);
    assert LastRtx(caps, a) == Some(caps[1]);
    assert MapOneRtx(m, producer[1], producer, caps) == Success(m[pt := b]);
    assert m[pt := b] == map[pt := b];
  }

  lemma ClashOffer(producer: seq<CodecParameters>, caps: seq<Capability>, m: Mapping)
    requires |producer| == 2 && IsRtx(producer[1].info) && !IsRtx(producer[0].info)
    requires caps == Vp8List(100, 101) && Lookup(m, producer[0]) == 101
    ensures forall e :: e in Consumable(producer, caps, m) ==> IsRtx(e.info)
  {
    Sorts();
    var front := producer[..1];
    assert front == [producer[0]] && front[..0] == [] && producer[..|producer| - 1] == front;
    assert FindCapability(caps, 101) == caps[1];
    OfferedSorts(producer[0], caps[1]);
    FirstRtxMeaning(caps, OfferedMedia(producer[0], caps[1]).payloadType);
    var rtx := FirstRtx(caps, OfferedMedia(producer[0], caps[1]).payloadType);
    if rtx.Some? {
      OfferedSorts(producer[0], rtx.value);
    }
    assert Consumable(producer, caps, m) == Consumable(front, caps, m) + [] == [] + Offer(producer[0], caps, m);
  }

  /** The router's list for VP8 and VP9. */
  function VideoList(): seq<Capability> {
    [Entry(Vp8(), 100), RtxOf(100, 101), Entry(Vp9(), 102), RtxOf(102, 103)]
  }

  lemma VideoRouter(first: Capability, second: Capability, p: Placing, caps: seq<Capability>)
    requires first.info == Vp8() && second.info == Vp9() && caps == VideoList()
    requires first.preferredPayloadType == 0 && second.preferredPayloadType == 0
    requires p == Placing([], DYNAMIC_PAYLOAD_TYPES)
    ensures RouterCodecs([first, second]) == Success(caps)
  {
    var q := FirstPlaced(first, p);
    SecondPlaced([first], q, second, caps);
    assert [first] + [second] == [first, second];
  }

  lemma FirstPlaced(first: Capability, p: Placing) returns (q: Placing)
    requires first.info == Vp8() && first.preferredPayloadType == 0 && p == Placing([], DYNAMIC_PAYLOAD_TYPES)
    ensures PlaceAll([first]) == Success(q) && FreeListOk(q) && q.codecs == Vp8List(100, 101)
    ensures |q.free| >= 2 && q.free[0] == 102 && q.free[1] == 103
  {
    Vp8Router(first, p);
    FirstDynamic(p.free);
    q := Placing(Vp8List(100, 101), p.free[2..]);
    PlaceAllShape([first]);
  }

  lemma SecondPlaced(before: seq<Capability>, p: Placing, second: Capability, caps: seq<Capability>)
    requires PlaceAll(before) == Success(p) && FreeListOk(p) && p.codecs == Vp8List(100, 101)
    requires |p.free| >= 2 && p.free[0] == 102 && p.free[1] == 103
    requires second.info == Vp9() && second.preferredPayloadType == 0 && caps == VideoList()
    ensures PlaceAll(before + [second]) == Success(Placing(caps, p.free[2..]))
  {
    VideoBase(second);
    var base := Video(second.info.mimeType, 1, map[]);
    PlacedNext(before, second, p, base);
    PlaceDynamic(p, second, base);
    assert p.codecs + [Entry(second.info, 102), RtxOf(102, 103)] == caps;
  }

  lemma MapVideo(producer: seq<CodecParameters>, caps: seq<Capability>, m: Mapping)
    requires |producer| == 2 && producer[0].info == Vp8() && producer[1].info == Vp9() && caps == VideoList()
    requires producer[0].payloadType != producer[1].payloadType
    requires m == map[producer[0].payloadType := 100, producer[1].payloadType := 102]
    ensures MapCodecs(producer, caps) == Success(m)
  {
    Sorts();
    var front := producer[..1];
    assert front == [producer[0]] && front[..0] == [] && producer[..|producer| - 1] == front;
    SearchVideo(producer[0].info, caps);
    SearchVideo(producer[1].info, caps);
    assert MapMedia(front[..0], caps) == Success(map[]);
    assert MapMedia(front, caps) == Success(map[producer[0].payloadType := 100]);
    assert MapMedia(producer, caps) == Success(m);
    assert MapRtx(producer, 2, caps) == MapRtx(producer, 1, caps) == MapRtx(producer, 0, caps);
  }

  lemma SearchVideo(c: CodecInfo, caps: seq<Capability>)
    requires (c == Vp8() || c == Vp9()) && caps == VideoList()
    ensures FindStrict(c, caps) == Some(if c == Vp8() then caps[0] else caps[2])
  {
    Sorts();
    assert MimeType(caps[0].info) == MimeType(Vp8()) && MimeType(caps[2].info) == MimeType(Vp9());
    assert MimeType(caps[1].info) == "video/rtx";
    assert caps[1..][0] == caps[1] && caps[1..][1..][0] == caps[2];
  }

  /** What the router offers for a producer of VP8 and VP9. */
  function OfferedVideo(): seq<CodecParameters> {
    [ CodecParameters(Entry(Vp8(), 0).info, 100), CodecParameters(Rtx(100), 101),
      CodecParameters(Entry(Vp9(), 0).info, 102), CodecParameters(Rtx(102), 103) ]
  }

  /** The capabilities of an endpoint that supports VP9 and RTX. */
  function Vp9Endpoint(): seq<Capability> {
    [Capability("video", Vp9(), 102), Capability("video", Rtx(0), 103)]
  }

  lemma OneVideoOffer(c: CodecParameters, caps: seq<Capability>, m: Mapping, offered: seq<CodecParameters>, i: nat)
    requires caps == VideoList() && WellPlaced(caps) && offered == OfferedVideo() && (i == 0 || i == 2)
    requires c.info == (if i == 0 then Vp8() else Vp9()) && Lookup(m, c) == caps[i].preferredPayloadType
    ensures Offer(c, caps, m) == offered[i..i + 2]
  {
    Sorts();
    OfferOf(c, caps, m, caps[i]);
    RtxOfEntry(caps, i);
    VideoMedia(c, caps, offered, i);
  }

  lemma VideoMedia(c: CodecParameters, caps: seq<Capability>, offered: seq<CodecParameters>, i: nat)
    requires caps == VideoList() && offered == OfferedVideo() && (i == 0 || i == 2)
    requires c.info == (if i == 0 then Vp8() else Vp9())
    ensures OfferedMedia(c, caps[i]) == offered[i] && OfferedRtx(caps[i + 1]) == offered[i + 1]
  {
  }

  lemma RtxOfEntry(caps: seq<Capability>, i: nat)
    requires caps == VideoList() && WellPlaced(caps) && (i == 0 || i == 2)
    ensures FirstRtx(caps, caps[i].preferredPayloadType) == Some(caps[i + 1])
  {
    Sorts();
    RtxApt(caps[i].preferredPayloadType);
    FirstRtxMeaning(caps, caps[i].preferredPayloadType);
    FirstRtxFound(caps, caps[i + 1]);
    AptNamesMedia(caps, caps[i + 1]);
  }

  lemma VideoOffer(producer: seq<CodecParameters>, caps: seq<Capability>, m: Mapping, offered: seq<CodecParameters>)
    requires |producer| == 2 && producer[0].info == Vp8() && producer[1].info == Vp9()
    requires caps == VideoList() && WellPlaced(caps)
    requires Lookup(m, producer[0]) == 100 && Lookup(m, producer[1]) == 102 && offered == OfferedVideo()
    ensures Consumable(producer, caps, m) == offered
  {
    var front := producer[..1];
    assert front == [producer[0]] && front[..0] == [] && producer[..|producer| - 1] == front;
    OneVideoOffer(producer[0], caps, m, offered, 0);
    OneVideoOffer(producer[1], caps, m, offered, 2);
    assert Consumable(front[..0], caps, m) == [];
    assert [] + offered[0..2] + offered[2..4] == offered;
  }

  lemma EndpointMatches(offered: seq<CodecParameters>, remote: seq<Capability>)
    requires offered == OfferedVideo() && remote == Vp9Endpoint()
    ensures AllValid(remote) && IsRtx(offered[1].info) && !IsRtx(offered[2].info)
    ensures !RemoteMatches(offered[0], remote) && RemoteMatches(offered[1], remote) && RemoteMatches(offered[2], remote)
  {
    Sorts();
    ValidVideo(Vp9());
    ValidVideo(Rtx(0));
    assert MimeType(offered[0].info) == MimeType(Vp8()) && MimeType(offered[2].info) == MimeType(Vp9());
    assert Matches(remote[1].info, offered[1].info, true);
    assert Matches(remote[0].info, offered[2].info, true);
  }

  /** A request for VP8 and VP9 under dynamic types, and a producer that offers both, VP8 first. */
  predicate AsksForVideo(requested: seq<Capability>, producer: seq<CodecParameters>) {
    && |requested| == 2 && requested[0].info == Vp8() && requested[1].info == Vp9()
    && requested[0].preferredPayloadType == 0 && requested[1].preferredPayloadType == 0
    && |producer| == 2 && producer[0].info == Vp8() && producer[1].info == Vp9()
    && producer[0].payloadType != producer[1].payloadType
  }

  lemma VideoRouted(requested: seq<Capability>, producer: seq<CodecParameters>, caps: seq<Capability>)
    requires AsksForVideo(requested, producer) && caps == VideoList()
    ensures RouterCodecs(requested) == Success(caps) && WellPlaced(caps)
  {
    assert requested == [requested[0], requested[1]];
    VideoRouter(requested[0], requested[1], Placing([], DYNAMIC_PAYLOAD_TYPES), caps);
    PlaceAllShape(requested);
  }

  lemma VideoMapped(producer: seq<CodecParameters>, caps: seq<Capability>, offered: seq<CodecParameters>, m: Mapping)
    requires |producer| == 2 && producer[0].info == Vp8() && producer[1].info == Vp9()
    requires producer[0].payloadType != producer[1].payloadType
    requires m == map[producer[0].payloadType := 100, producer[1].payloadType := 102]
    requires caps == VideoList() && WellPlaced(caps) && offered == OfferedVideo()
    ensures MapCodecs(producer, caps) == Success(m) && Consumable(producer, caps, m) == offered
  {
    MapVideo(producer, caps, m);
    VideoOffer(producer, caps, m, offered);
  }

  /**
   A router for VP8 and VP9, a producer that offers both, VP8 first, and an endpoint
   that supports VP9 and RTX: the router's answer is no, although a consumer can be
   created, with RTX enabled or not.
   */
  lemma GapIsReached(requested: seq<Capability>, producer: seq<CodecParameters>, remote: seq<Capability>,
                     enableRtx: bool)
    requires AsksForVideo(requested, producer) && remote == Vp9Endpoint()
    ensures ProducerOffer(requested, producer).Success?
    ensures var offered := ProducerOffer(requested, producer).value;
      !CanConsume(offered, remote) && ConsumerCodecs(offered, remote, enableRtx).Success?
  {
    var caps, offered := VideoGap(requested, producer, remote);
    TwoDistinct(producer);
    if enableRtx {
      GapWithRtx(requested, producer, caps, offered, remote);
    }
  }

  lemma VideoGap(requested: seq<Capability>, producer: seq<CodecParameters>, remote: seq<Capability>)
    returns (caps: seq<Capability>, offered: seq<CodecParameters>)
    requires AsksForVideo(requested, producer) && remote == Vp9Endpoint()
    ensures RouterCodecs(requested) == Success(caps) && AllBytes(caps)
    ensures ProducerOffer(requested, producer) == Success(offered)
    ensures !CanConsume(offered, remote) && ConsumerCodecs(offered, remote, false).Success?
  {
    caps, offered := VideoList(), OfferedVideo();
    var m: Mapping := map[producer[0].payloadType := 100, producer[1].payloadType := 102];
    VideoRouted(requested, producer, caps);
    VideoMapped(producer, caps, offered, m);
    OfferVia(requested, producer, caps, m);
    EndpointGap(offered, remote);
    AllFit(caps);
  }

  lemma EndpointGap(offered: seq<CodecParameters>, remote: seq<Capability>)
    requires offered == OfferedVideo() && remote == Vp9Endpoint()
    ensures !CanConsume(offered, remote) && ConsumerCodecs(offered, remote, false).Success?
  {
    EndpointMatches(offered, remote);
    HiddenMedia(offered, remote, 2);
  }

  lemma TwoDistinct(producer: seq<CodecParameters>)
    requires |producer| == 2 && producer[0].payloadType != producer[1].payloadType
    ensures DistinctTypes(producer)
  {
  }

  lemma AllFit(caps: seq<Capability>)
    requires caps == VideoList()
    ensures AllBytes(caps)
  {
  }

  lemma GapWithRtx(requested: seq<Capability>, producer: seq<CodecParameters>, caps: seq<Capability>,
                   offered: seq<CodecParameters>, remote: seq<Capability>)
    requires AllBytes(caps) && RouterCodecs(requested) == Success(caps)
    requires ProducerOffer(requested, producer) == Success(offered) && DistinctTypes(producer)
    requires !CanConsume(offered, remote) && ConsumerCodecs(offered, remote, false).Success?
    ensures ConsumerCodecs(offered, remote, true).Success?
  {
    DistinctIsConsistent(producer, caps);
    RequestDecidesTypes(requested);
    GapExact(requested, producer, remote, false);
    GapExact(requested, producer, remote, true);
  }
}
