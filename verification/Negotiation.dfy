/** The whole negotiation: router capabilities, producer mapping, consumable codecs, consumer codecs. */
module Negotiation {
  import opened Common
  import opened Codecs
  import opened RouterCapabilities
  import opened ProducerMapping
  import opened ConsumerParameters

  /** The router's codecs for the codecs requested when it was created. */
  function RouterCodecs(requested: seq<Capability>): Result<seq<Capability>> {
    match PlaceAll(requested)
    case Failure => Failure
    case Success(p) => Success(p.codecs)
  }

  /** The consumable codecs of a producer on that router. */
  function ProducerOffer(requested: seq<Capability>, producer: seq<CodecParameters>): Result<seq<CodecParameters>> {
    var caps := RouterCodecs(requested);
    if caps.Failure? then Failure
    else
      var m := MapCodecs(producer, caps.value);
      if m.Failure? then Failure else Success(Consumable(producer, caps.value, m.value))
  }

  /** The key of the router's entry for a requested codec, if it gets one. */
  function RequestKey(media: Capability): Option<Key> {
    if IsSupported(media) then CodecKey(Merged(media, Base(media).value), true) else None
  }

  /** Codec `i` is the first of its key, so producers' codecs are mapped to its entry and not to a later one. */
  predicate FirstOfKey(requested: seq<Capability>, i: nat)
    requires i < |requested|
  {
    RequestKey(requested[i]).Some? && forall j :: 0 <= j < i ==> RequestKey(requested[j]) != RequestKey(requested[i])
  }

  /** The condition on a request under which no payload type is changed by the narrowing to 8 bits. */
  predicate RequestFits(requested: seq<Capability>) {
    var media := SupportedMedia(requested);
    forall i :: 0 <= i < |media| && FirstOfKey(media, i) ==> IsByte(media[i].preferredPayloadType)
  }

  lemma {:induction false} StrictSkipsRtx(c: CodecInfo, caps: seq<Capability>)
    requires !IsRtx(c)
    ensures FindStrict(c, caps) == FindStrict(c, NonRtx(caps))
  {
    if caps != [] {
      MatchIffSameKey(c, caps[0].info, true, true);
      MatchIffSameKey(c, caps[0].info, true, false);
      MatchLaws(c, caps[0].info, c, true);
      StrictSkipsRtx(c, caps[1..]);
      var rest := NonRtx(caps[1..]);
      assert ([caps[0]] + rest)[1..] == rest && [] + rest == rest;
    }
  }

  predicate FirstMatchAt(c: CodecInfo, entries: seq<Capability>, i: nat)
    requires i < |entries|
  {
    && CodecKey(c, true).Some? && CodecKey(entries[i].info, true) == CodecKey(c, true)
    && forall j :: 0 <= j < i ==> CodecKey(entries[j].info, true) != CodecKey(c, true)
  }

  lemma FindStrictAt(c: CodecInfo, entries: seq<Capability>, i: nat)
    requires i < |entries| && FirstMatchAt(c, entries, i)
    ensures FindStrict(c, entries) == Some(entries[i])
  {
    forall j | 0 <= j <= i ensures Matches(c, entries[j].info, true) <==> j == i {
      MatchIffSameKey(c, entries[j].info, true, false);
    }
    FirstMatchUnique(c, entries, i);
  }

  lemma FoundAt(c: CodecInfo, entries: seq<Capability>) returns (i: nat)
    requires FindStrict(c, entries).Some?
    ensures i < |entries| && entries[i] == FindStrict(c, entries).value && FirstMatchAt(c, entries, i)
  {
    i := FindStrictFirst(c, entries);
    forall j | 0 <= j <= i
      ensures Matches(c, entries[j].info, true)
         <==> CodecKey(c, true).Some? && CodecKey(c, true) == CodecKey(entries[j].info, true)
    {
      MatchIffSameKey(c, entries[j].info, true, false);
    }
  }

  /** Entry by entry, the router's media entries have the keys of the supported requested codecs. */
  lemma EntryKeys(requested: seq<Capability>)
    requires RouterCodecs(requested).Success?
    ensures var entries, media := NonRtx(RouterCodecs(requested).value), SupportedMedia(requested);
      |entries| == |media| && forall i :: 0 <= i < |media| ==>
        && RequestKey(media[i]) == CodecKey(entries[i].info, true)
        && (IsByte(entries[i].preferredPayloadType) <==> IsByte(media[i].preferredPayloadType))
  {
    PlaceAllOffers(requested);
    var entries, media := NonRtx(RouterCodecs(requested).value), SupportedMedia(requested);
    forall i | 0 <= i < |media|
      ensures RequestKey(media[i]) == CodecKey(entries[i].info, true)
      ensures IsByte(entries[i].preferredPayloadType) <==> IsByte(media[i].preferredPayloadType)
    {
      OffersByte(entries[i], media[i]);
      OffersMerged(entries[i], media[i]);
    }
  }

  /** The types that media codecs can be mapped to fit a byte exactly when the request has this condition. */
  lemma RequestDecidesTypes(requested: seq<Capability>)
    requires RouterCodecs(requested).Success?
    ensures TypesFit(RouterCodecs(requested).value) <==> RequestFits(requested)
  {
    var caps, media := RouterCodecs(requested).value, SupportedMedia(requested);
    var entries := NonRtx(caps);
    EntryKeys(requested);
    NonRtxMembers(caps);
    if RequestFits(requested) {
      forall cap | cap in caps && Leading(caps, cap) ensures IsByte(cap.preferredPayloadType) {
        StrictSkipsRtx(cap.info, caps);
        var i := FoundAt(cap.info, entries);
        assert FirstOfKey(media, i);
      }
    }
    if TypesFit(caps) {
      forall i | 0 <= i < |media| && FirstOfKey(media, i) ensures IsByte(media[i].preferredPayloadType) {
        assert entries[i] in caps;
        FindStrictAt(entries[i].info, entries, i);
        StrictSkipsRtx(entries[i].info, caps);
      }
    }
  }

  /**
   Exactly which requests keep payload types through the offer: every producer that the
   router accepts is offered under the types it is mapped to, if and only if every
   supported requested codec that is the first of its key has a type that fits a byte.
   */
  lemma TypesKeptExactly(requested: seq<Capability>)
    requires RouterCodecs(requested).Success?
    ensures var caps := RouterCodecs(requested).value;
      (forall producer: seq<CodecParameters> ::
         NoClash(producer) && MapCodecs(producer, caps).Success?
         ==> TypesKept(producer, caps, MapCodecs(producer, caps).value))
      <==> RequestFits(requested)
  {
    PlaceAllShape(requested);
    RequestDecidesTypes(requested);
    OfferedTypesExact(RouterCodecs(requested).value);
  }

  lemma OfferWellFormed(requested: seq<Capability>, producer: seq<CodecParameters>)
    requires RequestFits(requested) && NoClash(producer) && ProducerOffer(requested, producer).Success?
    ensures var caps := RouterCodecs(requested).value;
      WellPlaced(caps) && WellOffered(caps, ProducerOffer(requested, producer).value)
  {
    var caps := RouterCodecs(requested).value;
    PlaceAllShape(requested);
    RequestDecidesTypes(requested);
    MediaStaysMedia(producer, caps);
    ConsumableShape(producer, caps, MapCodecs(producer, caps).value);
  }

  /** Whether a consumer is to get the offered codec `c`. */
  ghost predicate Wanted(offered: seq<CodecParameters>, remote: seq<Capability>, enableRtx: bool, c: CodecParameters) {
    && c in offered && RemoteMatches(c, remote)
    && (IsRtx(c.info) ==> enableRtx && exists media :: media in offered && !IsRtx(media.info)
                                        && RemoteMatches(media, remote) && media.payloadType == Apt(c.info))
  }

  /**
   When all four stages succeed, the consumer gets exactly the offered media codecs
   that the remote endpoint supports and, if enabled, the supported RTX codecs whose
   apt names one of them; the first is a media codec, every entry carries the
   payload type of a router entry of its own sort, and RTX is reported exactly when
   the list has it.
   */
  lemma EndToEnd(requested: seq<Capability>, producer: seq<CodecParameters>, remote: seq<Capability>, enableRtx: bool)
    requires RequestFits(requested) && NoClash(producer) && ProducerOffer(requested, producer).Success?
    requires ConsumerCodecs(ProducerOffer(requested, producer).value, remote, enableRtx).Success?
    ensures var offered := ProducerOffer(requested, producer).value;
      var (codecs, rtxSupported) := ConsumerCodecs(offered, remote, enableRtx).value;
      && (forall c :: c in codecs <==> Wanted(offered, remote, enableRtx, c))
      && codecs != [] && !IsRtx(codecs[0].info)
      && (forall c :: c in codecs ==> FromRouter(RouterCodecs(requested).value, c))
      && (forall c :: c in codecs && IsRtx(c.info) ==>
            exists media :: media in codecs && !IsRtx(media.info) && media.payloadType == Apt(c.info))
      && (rtxSupported <==> HasRtx(codecs))
  {
    var caps, offered := RouterCodecs(requested).value, ProducerOffer(requested, producer).value;
    OfferWellFormed(requested, producer);
    WellOfferedApts(caps, offered);
    MatchedMembers(offered, remote, enableRtx);
    var matched := Matched(offered, remote, enableRtx);
    SanitizedMeaning(matched);
    UsefulMembers(matched, matched);
    var codecs := Sanitized(matched).0;
    forall c | c in matched && IsRtx(c.info)
      ensures IsUseful(c, matched) <==> Wanted(offered, remote, enableRtx, c)
      ensures IsUseful(c, matched) ==>
        exists media :: media in codecs && !IsRtx(media.info) && media.payloadType == Apt(c.info)
    {
      UsefulIffWanted(offered, remote, enableRtx, c);
    }
  }

  lemma UsefulIffWanted(offered: seq<CodecParameters>, remote: seq<Capability>, enableRtx: bool, c: CodecParameters)
    requires var matched := Matched(offered, remote, enableRtx);
      c in matched && IsRtx(c.info) && AptsNameNoRtx(matched)
    ensures var matched := Matched(offered, remote, enableRtx);
      && (IsUseful(c, matched) <==> Wanted(offered, remote, enableRtx, c))
      && (IsUseful(c, matched) ==>
            exists media :: media in Useful(matched, matched) && !IsRtx(media.info) && media.payloadType == Apt(c.info))
  {
    var matched := Matched(offered, remote, enableRtx);
    MatchedMembers(offered, remote, enableRtx);
    UsefulMembers(matched, matched);
    if IsUseful(c, matched) {
      var i :| 0 <= i < |matched| && matched[i].payloadType == Apt(c.info);
      assert matched[i] in matched && matched[i] in Useful(matched, matched);
    }
    if Wanted(offered, remote, enableRtx, c) {
      var media :|
        media in offered && !IsRtx(media.info) && RemoteMatches(media, remote) && media.payloadType == Apt(c.info);
      assert media in matched;
    }
  }

  /** The mapping of a producer that the router accepts. */
  function ProducerMap(requested: seq<Capability>, producer: seq<CodecParameters>): Mapping
    requires ProducerOffer(requested, producer).Success?
  {
    MapCodecs(producer, RouterCodecs(requested).value).value
  }

  /**
   What the router offers of a producer: its media codecs, one each and in order, with
   their parameters under their mapped types, and directly behind each video codec the
   RTX codec of its entry.
   */
  lemma OfferLists(requested: seq<Capability>, producer: seq<CodecParameters>)
    requires RequestFits(requested) && NoClash(producer) && ProducerOffer(requested, producer).Success?
    ensures var caps, offered := RouterCodecs(requested).value, ProducerOffer(requested, producer).value;
      && OffersAll(caps, ProducerMap(requested, producer), MediaOf(offered), MediaOf(producer))
      && VideoFollowed(caps, offered)
  {
    var caps := RouterCodecs(requested).value;
    PlaceAllShape(requested);
    RequestDecidesTypes(requested);
    MediaStaysMedia(producer, caps);
    ConsumableLists(producer, caps, MapCodecs(producer, caps).value);
  }

  /** Channel numbers are 8 bits wide in the parameters of a producer. */
  predicate ChannelsFit(codecs: seq<CodecParameters>) {
    forall c :: c in codecs ==> IsByte(c.info.channels)
  }

  /** Offered media codecs have the keys of the producer's. */
  lemma OfferedKeys(requested: seq<Capability>, producer: seq<CodecParameters>)
    requires RequestFits(requested) && ProducerOffer(requested, producer).Success? && ChannelsFit(producer)
    requires Consistent(producer, RouterCodecs(requested).value)
    ensures var entries, codecs := MediaOf(ProducerOffer(requested, producer).value), MediaOf(producer);
      |entries| == |codecs|
      && forall i :: 0 <= i < |codecs| ==> CodecKey(entries[i].info, true) == CodecKey(codecs[i].info, true)
  {
    var caps, m := RouterCodecs(requested).value, ProducerMap(requested, producer);
    var codecs := MediaOf(producer);
    PlaceAllShape(requested);
    OfferLists(requested, producer);
    MappingMeaning(producer, caps);
    MediaOfMembers(producer);
    forall i | 0 <= i < |codecs| ensures MediaToMedia(caps, m, codecs[i]) && IsByte(codecs[i].info.channels) {
      assert codecs[i] in codecs && GoesRight(producer, caps, m, codecs[i]);
    }
  }

  /**
   From producer to consumer: the consumer's media codecs are those of the producer
   that the endpoint supports, one each and in order, with their parameters under their
   mapped types; and a consumer can be created, with RTX enabled or not, exactly when
   there is one.
   */
  lemma ConsumerGets(
    requested: seq<Capability>, producer: seq<CodecParameters>, remote: seq<Capability>, enableRtx: bool)
    requires RequestFits(requested) && ProducerOffer(requested, producer).Success? && ChannelsFit(producer)
    requires Consistent(producer, RouterCodecs(requested).value)
    ensures var caps, m := RouterCodecs(requested).value, ProducerMap(requested, producer);
      var r := ConsumerCodecs(ProducerOffer(requested, producer).value, remote, enableRtx);
      var supported := SupportedBy(MediaOf(producer), remote);
      && (r.Success? <==> AllValid(remote) && supported != [])
      && (r.Success? ==> OffersAll(caps, m, MediaOf(r.value.0), supported))
  {
    var caps, offered := RouterCodecs(requested).value, ProducerOffer(requested, producer).value;
    OfferLists(requested, producer);
    OfferedKeys(requested, producer);
    SupportedInStep(caps, ProducerMap(requested, producer), MediaOf(offered), MediaOf(producer), remote);
    OfferWellFormed(requested, producer);
    WellOfferedApts(caps, offered);
    SuccessWithoutRtx(offered, remote);
    MatchedMedia(offered, remote, true);
    MediaOfMembers(Matched(offered, remote, true));
    SomeMedia(Matched(offered, remote, true));
    if enableRtx {
      OfferHasKeys(requested, producer);
      RtxDoesNotDecide(caps, offered, remote);
    }
    if ConsumerCodecs(offered, remote, enableRtx).Success? {
      ConsumerMedia(offered, remote, enableRtx);
    }
  }

  lemma SomeMedia(codecs: seq<CodecParameters>)
    ensures HasMedia(codecs) <==> MediaOf(codecs) != []
  {
    MediaOfMembers(codecs);
    if MediaOf(codecs) != [] {
      assert MediaOf(codecs)[0] in codecs;
    }
  }

  lemma OfferHasKeys(requested: seq<Capability>, producer: seq<CodecParameters>)
    requires RequestFits(requested) && ProducerOffer(requested, producer).Success?
    requires Consistent(producer, RouterCodecs(requested).value)
    ensures KeyPerType(ProducerOffer(requested, producer).value)
  {
    var caps := RouterCodecs(requested).value;
    PlaceAllShape(requested);
    RequestDecidesTypes(requested);
    MappingMeaning(producer, caps);
    ConsumableKeys(producer, caps, MapCodecs(producer, caps).value);
  }

  /**
   When the router's answer is wrong, for any request that keeps payload types, any
   producer whose repeated types agree, and RTX enabled or not.
   */
  lemma GapExact(requested: seq<Capability>, producer: seq<CodecParameters>, remote: seq<Capability>, enableRtx: bool)
    requires RequestFits(requested) && ProducerOffer(requested, producer).Success?
    requires Consistent(producer, RouterCodecs(requested).value)
    ensures var offered := ProducerOffer(requested, producer).value;
      var all := Matched(offered, remote, true);
      (!CanConsume(offered, remote) && ConsumerCodecs(offered, remote, enableRtx).Success?)
      <==> AllValid(remote) && HasMedia(all) && IsRtx(all[0].info)
  {
    var caps, offered := RouterCodecs(requested).value, ProducerOffer(requested, producer).value;
    OfferWellFormed(requested, producer);
    OfferHasKeys(requested, producer);
    CanConsumeGap(caps, offered, remote, enableRtx);
  }

  lemma {:induction false} MatchedFromSecond(codecs: seq<CodecParameters>, remote: seq<Capability>)
    requires |codecs| > 1 && !RemoteMatches(codecs[0], remote) && RemoteMatches(codecs[1], remote)
    ensures var all := Matched(codecs, remote, true); all != [] && all[0] == codecs[1]
  {
    var front := codecs[..|codecs| - 1];
    if |codecs| > 2 {
      MatchedFromSecond(front, remote);
    } else {
      assert front == [codecs[0]] && front[..0] == [];
      assert Matched(front, remote, true) == [];
    }
  }

  /** An unsupported first codec whose RTX codec is supported hides every later media codec from canConsume. */
  lemma HiddenMedia(offered: seq<CodecParameters>, remote: seq<Capability>, k: nat)
    requires AllValid(remote) && 1 < k < |offered|
    requires !RemoteMatches(offered[0], remote) && RemoteMatches(offered[1], remote) && IsRtx(offered[1].info)
    requires RemoteMatches(offered[k], remote) && !IsRtx(offered[k].info)
    ensures !CanConsume(offered, remote) && ConsumerCodecs(offered, remote, false).Success?
  {
    MatchedFromSecond(offered, remote);
    MatchedMembers(offered, remote, true);
    assert offered[k] in offered && offered[k] in Matched(offered, remote, true);
    CanConsumeGap([], offered, remote, false);
  }
}
