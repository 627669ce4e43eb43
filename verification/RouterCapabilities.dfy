/** The router's RTP capabilities: payload-type allocation and RTX entries. */
module RouterCapabilities {
  import opened Common
  import opened Codecs

  /** The dynamic payload types, in the order they are given out. */
  const DYNAMIC_PAYLOAD_TYPES: seq<int32> := [
    100, 101, 102, 103, 104, 105, 106, 107, 108, 109, 110,
    111, 112, 113, 114, 115, 116, 117, 118, 119, 120, 121,
    122, 123, 124, 125, 126, 127, 96, 97, 98, 99
  ]

  function Audio(mimeType: string, payloadType: int32, clockRate: int): Capability {
    Capability("audio", CodecInfo(mimeType, clockRate, 1, map[]), payloadType)
  }

  function MultiOpus(channels: int, mapping: string, streams: int, coupled: int): Capability {
    Capability("audio", CodecInfo("audio/multiopus", 48000, channels,
      map["channel_mapping" := Str(mapping), "num_streams" := Num(streams), "coupled_streams" := Num(coupled)]), 0)
  }

  function Video(mimeType: string, channels: int, parameters: Parameters): Capability {
    Capability("video", CodecInfo(mimeType, 90000, channels, parameters), 0)
  }

  /** The supported codecs. */
  function Supported(): seq<Capability> {
    [ Capability("audio", CodecInfo("audio/opus", 48000, 2, map[]), 0),
      MultiOpus(4, "0,1,2,3", 2, 2),
      MultiOpus(6, "0,4,1,2,3,5", 4, 2),
      MultiOpus(8, "0,6,1,2,3,4,5,7", 5, 3),
      Audio("audio/PCMU", 0, 8000), Audio("audio/PCMA", 8, 8000),
      Audio("audio/ISAC", 0, 32000), Audio("audio/ISAC", 0, 16000),
      Audio("audio/G722", 9, 8000), Audio("audio/iLBC", 0, 8000),
      Audio("audio/SILK", 0, 24000), Audio("audio/SILK", 0, 16000),
      Audio("audio/SILK", 0, 12000), Audio("audio/SILK", 0, 8000),
      Audio("audio/CN", 13, 32000), Audio("audio/CN", 13, 16000), Audio("audio/CN", 13, 8000),
      Audio("audio/telephone-event", 0, 48000), Audio("audio/telephone-event", 0, 32000),
      Audio("audio/telephone-event", 0, 16000), Audio("audio/telephone-event", 0, 8000),
      Video("video/VP8", 1, map[]), Video("video/VP9", 1, map[]),
      Video("video/H264", 0, map["level-asymmetry-allowed" := Num(1)]),
      Video("video/H264-SVC", 0, map["level-asymmetry-allowed" := Num(1)]),
      Video("video/H265", 0, map["level-asymmetry-allowed" := Num(1)]) ]
  }

  /** Validation gives audio without channels one channel and removes the channels of anything else. */
  function Normalized(c: CodecInfo): CodecInfo
    requires Validates(c)
  {
    if c.mimeType[..5] == "audio" then (if c.channels == 0 then c.(channels := 1) else c) else c.(channels := 0)
  }

  /** The first entry of `table` that `c` matches loosely. */
  function FindLoose(c: CodecInfo, table: seq<Capability>): Option<Capability> {
    if table == [] then None
    else if Matches(c, table[0].info, false) then Some(table[0])
    else FindLoose(c, table[1..])
  }

  /** What validation does to the channels of a codec; it changes nothing else. */
  lemma NormalizedMeaning(c: CodecInfo)
    requires Validates(c)
    ensures Normalized(c) == c.(channels := Normalized(c).channels)
    ensures c.mimeType[..5] == "audio" && c.channels != 0 ==> Normalized(c).channels == c.channels
    ensures c.mimeType[..5] == "audio" && c.channels == 0 ==> Normalized(c).channels == 1
    ensures c.mimeType[..5] != "audio" ==> Normalized(c).channels == 0
  {
  }

  /** The search finds an entry exactly when some entry matches, and then the first one that does. */
  lemma {:induction false} FindLooseMeaning(c: CodecInfo, table: seq<Capability>) returns (k: nat)
    ensures FindLoose(c, table).Some? <==> exists i :: 0 <= i < |table| && Matches(c, table[i].info, false)
    ensures FindLoose(c, table).Some? ==>
      && k < |table| && FindLoose(c, table) == Some(table[k]) && Matches(c, table[k].info, false)
      && forall i :: 0 <= i < k ==> !Matches(c, table[i].info, false)
  {
    k := 0;
    if table != [] && !Matches(c, table[0].info, false) {
      var rest := FindLooseMeaning(c, table[1..]);
      k := rest + 1;
      if i :| 0 <= i < |table| && Matches(c, table[i].info, false) {
        assert table[1..][i - 1] == table[i];
      }
      if FindLoose(c, table).Some? {
        forall i | 0 <= i < k ensures !Matches(c, table[i].info, false) {
          assert i > 0 ==> table[1..][i - 1] == table[i];
        }
      }
    }
  }

  /** The supported codec behind a requested one, if any. */
  function Base(media: Capability): Option<Capability>
    requires Validates(media.info)
  {
    FindLoose(Normalized(media.info), Supported())
  }

  /** A requested codec is supported exactly when it matches some table entry, and by the first that it matches. */
  lemma BaseMeaning(media: Capability) returns (k: nat)
    requires Validates(media.info)
    ensures Base(media).Some?
       <==> exists i :: 0 <= i < |Supported()| && Matches(Normalized(media.info), Supported()[i].info, false)
    ensures Base(media).Some? ==>
      && k < |Supported()| && Base(media) == Some(Supported()[k])
      && forall i :: 0 <= i < k ==> !Matches(Normalized(media.info), Supported()[i].info, false)
  {
    k := FindLooseMeaning(Normalized(media.info), Supported());
  }

  /** The codecs placed so far and the dynamic payload types still free. */
  datatype Placing = Placing(codecs: seq<Capability>, free: seq<int32>)

  function Remove(free: seq<int32>, pt: int32): seq<int32> {
    if free == [] then [] else if free[0] == pt then free[1..] else [free[0]] + Remove(free[1..], pt)
  }

  function PayloadTypes(codecs: seq<Capability>): (r: set<int32>) {
    set c | c in codecs :: c.preferredPayloadType
  }

  /** The payload type of a media codec and the types left free, or failure when none is left. */
  function ChoosePayloadType(media: Capability, base: Capability, free: seq<int32>): Result<(int32, seq<int32>)> {
    if media.preferredPayloadType != 0 then
      Success((media.preferredPayloadType, Remove(free, media.preferredPayloadType)))
    else if base.preferredPayloadType != 0 then Success((base.preferredPayloadType, free))
    else if free == [] then Failure
    else Success((free[0], free[1..]))
  }

  function Merged(media: Capability, base: Capability): CodecInfo {
    base.info.(parameters := base.info.parameters + media.info.parameters)
  }

  function RtxFor(codec: Capability, pt: int32): Capability {
    Capability(codec.kind,
      CodecInfo(codec.kind + "/rtx", codec.info.clockRate, 0, map["apt" := Num(codec.preferredPayloadType)]), pt)
  }

  /** Places one supported media codec and, for video, its RTX codec. */
  function Place(p: Placing, media: Capability, base: Capability): Result<Placing> {
    var chosen := ChoosePayloadType(media, base, p.free);
    if chosen.Failure? then Failure
    else
      var (pt, free) := chosen.value;
      var codec := Capability(base.kind, Merged(media, base), pt);
      if pt in PayloadTypes(p.codecs) then Failure
      else if codec.kind != "video" then Success(Placing(p.codecs + [codec], free))
      else if free == [] then Failure
      else Success(Placing(p.codecs + [codec, RtxFor(codec, free[0])], free[1..]))
  }

  /** The state after all of `media`; codecs the router does not support are skipped. */
  function PlaceAll(media: seq<Capability>): Result<Placing> {
    if media == [] then Success(Placing([], DYNAMIC_PAYLOAD_TYPES))
    else
      var before := PlaceAll(media[..|media| - 1]);
      var last := media[|media| - 1];
      if before.Failure? || !Validates(last.info) then Failure
      else if Base(last).None? then before
      else Place(before.value, last, Base(last).value)
  }

  predicate Distinct(s: seq<int32>) {
    forall i, j :: 0 <= i < j < |s| ==> s[i] != s[j]
  }

  /** `r` is the RTX codec of the video codec `m`. */
  predicate IsRtxOf(r: Capability, m: Capability) {
    && IsRtx(r.info) && !IsRtx(m.info) && m.kind == "video" && Apt(r.info) == m.preferredPayloadType
    && r.kind == m.kind && r.info.clockRate == m.info.clockRate
  }

  /**
   The shape of the router's codec list: payload types differ and are not 0,
   every video codec is directly followed by its RTX codec, and every RTX codec
   directly follows its video codec and has a dynamic type.
   */
  ghost predicate WellPlaced(codecs: seq<Capability>) {
    && (forall i, j :: 0 <= i < j < |codecs| ==> codecs[i].preferredPayloadType != codecs[j].preferredPayloadType)
    && (forall i :: 0 <= i < |codecs| ==> codecs[i].preferredPayloadType != 0)
    && (forall i :: 0 <= i < |codecs| && codecs[i].kind == "video" && !IsRtx(codecs[i].info)
          ==> i + 1 < |codecs| && IsRtxOf(codecs[i + 1], codecs[i]))
    && (forall i :: 0 <= i < |codecs| && IsRtx(codecs[i].info) ==>
          i > 0 && IsRtxOf(codecs[i], codecs[i - 1]) && 96 <= codecs[i].preferredPayloadType <= 127)
  }

  /** The free list has no duplicates, holds dynamic types only, and none that is already placed. */
  ghost predicate FreeListOk(p: Placing) {
    && Distinct(p.free)
    && (forall pt :: pt in p.free ==> 96 <= pt <= 127)
    && (forall pt :: pt in p.free ==> pt !in PayloadTypes(p.codecs))
  }

  lemma RtxName(c: CodecInfo)
    ensures IsRtx(c) ==> |c.mimeType| == 9 && (c.mimeType[6] == 'r' || c.mimeType[6] == 'R')
    ensures c.mimeType == "video/rtx" ==> IsRtx(c)
  {
    if IsRtx(c) {
      assert MimeType(c)[6] == LowerChar(c.mimeType[6]);
    }
    if c.mimeType == "video/rtx" {
      assert MimeType(c) == "video/rtx";
    }
  }

  /** What the allocator relies on about an entry of the supported table. */
  predicate Regular(c: Capability) {
    && !IsRtx(c.info) && (c.kind == "audio" || c.kind == "video")
    && 0 <= c.preferredPayloadType < 96
  }

  lemma SupportedRegular(i: nat)
    requires i < |Supported()|
    ensures Regular(Supported()[i])
  {
    RtxName(Supported()[i].info);
  }

  lemma {:induction false} FindLooseRegular(c: CodecInfo, table: seq<Capability>)
    requires forall i :: 0 <= i < |table| ==> Regular(table[i])
    ensures var r := FindLoose(c, table); r.Some? ==> Regular(r.value) && Matches(c, r.value.info, false)
  {
    if table != [] {
      FindLooseRegular(c, table[1..]);
    }
  }

  lemma BaseRegular(media: Capability)
    requires Validates(media.info) && Base(media).Some?
    ensures Regular(Base(media).value)
  {
    forall i | 0 <= i < |Supported()| ensures Regular(Supported()[i]) {
      SupportedRegular(i);
    }
    FindLooseRegular(Normalized(media.info), Supported());
  }

  lemma {:induction false} RemoveDistinct(free: seq<int32>, pt: int32)
    requires Distinct(free)
    ensures Distinct(Remove(free, pt))
    ensures forall x :: x in Remove(free, pt) <==> x in free && x != pt
  {
    if free != [] && free[0] != pt {
      var rest := Remove(free[1..], pt);
      RemoveDistinct(free[1..], pt);
      forall j | 0 <= j < |rest| ensures rest[j] != free[0] {
        assert rest[j] in rest;
      }
    }
  }

  lemma ChooseOk(p: Placing, media: Capability, base: Capability)
    requires FreeListOk(p) && Regular(base) && ChoosePayloadType(media, base, p.free).Success?
    ensures var (pt, free) := ChoosePayloadType(media, base, p.free).value;
      && pt != 0 && pt !in free && FreeListOk(Placing(p.codecs, free))
  {
    RemoveDistinct(p.free, media.preferredPayloadType);
    if media.preferredPayloadType == 0 && base.preferredPayloadType == 0 {
      assert p.free[0] in p.free;
      assert forall x :: x in p.free[1..] ==> x in p.free;
    }
  }

  lemma AppendWellPlaced(codecs: seq<Capability>, added: seq<Capability>)
    requires WellPlaced(codecs) && |added| > 0
    requires forall a :: a in added ==> a.preferredPayloadType != 0 && a.preferredPayloadType !in PayloadTypes(codecs)
    requires !IsRtx(added[0].info)
    requires |added| == 1 ==> added[0].kind != "video"
    requires |added| > 1 ==>
      && |added| == 2 && IsRtxOf(added[1], added[0]) && 96 <= added[1].preferredPayloadType <= 127
      && added[0].preferredPayloadType != added[1].preferredPayloadType
    ensures WellPlaced(codecs + added)
  {
    var all := codecs + added;
    forall i, j | 0 <= i < j < |all| ensures all[i].preferredPayloadType != all[j].preferredPayloadType {
      if i < |codecs| <= j {
        assert codecs[i] in codecs && all[j] in added;
      }
    }
    forall i | 0 <= i < |all| && IsRtx(all[i].info)
      ensures i > 0 && IsRtxOf(all[i], all[i - 1]) && 96 <= all[i].preferredPayloadType <= 127
    {
      assert i < |codecs| || i == |codecs| + 1;
    }
  }

  lemma DynamicTypes()
    ensures FreeListOk(Placing([], DYNAMIC_PAYLOAD_TYPES))
  {
    var d := DYNAMIC_PAYLOAD_TYPES;
    assert |d| == 32;
    assert forall i :: 0 <= i < 28 ==> d[i] == 100 + i;
    assert forall i :: 28 <= i < 32 ==> d[i] == 68 + i;
  }

  lemma PlaceKeepsShape(p: Placing, media: Capability, base: Capability)
    requires WellPlaced(p.codecs) && FreeListOk(p) && Regular(base)
    ensures var r := Place(p, media, base);
      r.Success? ==> WellPlaced(r.value.codecs) && FreeListOk(r.value)
  {
    var r := Place(p, media, base);
    if r.Success? {
      ChooseOk(p, media, base);
      var (pt, free) := ChoosePayloadType(media, base, p.free).value;
      var codec := Capability(base.kind, Merged(media, base), pt);
      assert !IsRtx(codec.info) by {
        assert MimeType(codec.info) == MimeType(base.info);
      }
      if codec.kind == "video" {
        RtxShape(codec, free[0]);
        assert free[0] in free && (forall x :: x in free[1..] ==> x in free);
        AppendWellPlaced(p.codecs, [codec, RtxFor(codec, free[0])]);
        FreeAfter(p.codecs, [codec, RtxFor(codec, free[0])], free, free[1..]);
      } else {
        AppendWellPlaced(p.codecs, [codec]);
        FreeAfter(p.codecs, [codec], free, free);
      }
    }
  }

  lemma RtxShape(codec: Capability, pt: int32)
    requires codec.kind == "video" && !IsRtx(codec.info)
    ensures IsRtxOf(RtxFor(codec, pt), codec)
  {
    RtxName(RtxFor(codec, pt).info);
  }

  lemma FreeAfter(codecs: seq<Capability>, added: seq<Capability>, free: seq<int32>, free': seq<int32>)
    requires FreeListOk(Placing(codecs, free)) && Distinct(free') && forall x :: x in free' ==> x in free
    requires forall a :: a in added ==> a.preferredPayloadType !in free'
    ensures FreeListOk(Placing(codecs + added, free'))
  {
  }

  /** Every successful run of the generator keeps the shape of the list and of the free list at every iteration. */
  lemma {:induction false} PlaceAllShape(media: seq<Capability>)
    ensures var r := PlaceAll(media);
      r.Success? ==> WellPlaced(r.value.codecs) && FreeListOk(r.value)
  {
    if media == [] {
      DynamicTypes();
    } else {
      var before, last := PlaceAll(media[..|media| - 1]), media[|media| - 1];
      PlaceAllShape(media[..|media| - 1]);
      if before.Success? && Validates(last.info) && Base(last).Some? {
        BaseRegular(last);
        PlaceKeepsShape(before.value, last, Base(last).value);
      }
    }
  }

  /** The types of `types` that are not in `placed`, in order. */
  function Unplaced(types: seq<int32>, placed: set<int32>): seq<int32> {
    if types == [] then []
    else (if types[0] in placed then [] else [types[0]]) + Unplaced(types[1..], placed)
  }

  lemma {:induction false} UnplacedMore(types: seq<int32>, placed: set<int32>, more: set<int32>)
    ensures Unplaced(Unplaced(types, placed), more) == Unplaced(types, placed + more)
  {
    if types != [] {
      var rest := Unplaced(types[1..], placed);
      UnplacedMore(types[1..], placed, more);
      assert ([types[0]] + rest)[1..] == rest;
      assert [] + rest == rest;
    }
  }

  lemma {:induction false} UnplacedSame(types: seq<int32>, placed: set<int32>)
    requires forall x :: x in types ==> x !in placed
    ensures Unplaced(types, placed) == types
  {
    if types != [] {
      UnplacedSame(types[1..], placed);
    }
  }

  lemma {:induction false} RemoveIsUnplaced(free: seq<int32>, pt: int32)
    requires Distinct(free)
    ensures Remove(free, pt) == Unplaced(free, {pt})
  {
    if free != [] {
      if free[0] == pt {
        UnplacedSame(free[1..], {pt});
      } else {
        RemoveIsUnplaced(free[1..], pt);
      }
    }
  }

  /** What choosing a type does to the free list: exactly the chosen type leaves it. */
  lemma ChooseFrees(p: Placing, media: Capability, base: Capability)
    requires FreeListOk(p) && Regular(base) && ChoosePayloadType(media, base, p.free).Success?
    ensures var (pt, free) := ChoosePayloadType(media, base, p.free).value; free == Unplaced(p.free, {pt})
  {
    if media.preferredPayloadType != 0 {
      RemoveIsUnplaced(p.free, media.preferredPayloadType);
    } else if base.preferredPayloadType != 0 {
      UnplacedSame(p.free, {base.preferredPayloadType});
    } else {
      UnplacedSame(p.free[1..], {p.free[0]});
    }
  }

  lemma PlaceFrees(p: Placing, media: Capability, base: Capability)
    requires FreeListOk(p) && Regular(base) && Place(p, media, base).Success?
    ensures var r := Place(p, media, base).value;
      && r.free == Unplaced(p.free, PayloadTypes(r.codecs[|p.codecs|..]))
      && |r.codecs| >= |p.codecs| && r.codecs[..|p.codecs|] == p.codecs
  {
    var r := Place(p, media, base).value;
    ChooseOk(p, media, base);
    ChooseFrees(p, media, base);
    var (pt, free) := ChoosePayloadType(media, base, p.free).value;
    var codec := Capability(base.kind, Merged(media, base), pt);
    var added := r.codecs[|p.codecs|..];
    if codec.kind == "video" {
      assert added == [codec, RtxFor(codec, free[0])];
      UnplacedSame(free[1..], {free[0]});
      UnplacedMore(p.free, {pt}, {free[0]});
      assert PayloadTypes(added) == {pt} + {free[0]} by {
        assert added[0] in added && added[1] in added;
      }
    } else {
      assert added == [codec];
      assert PayloadTypes(added) == {pt} by {
        assert added[0] in added;
      }
    }
  }

  lemma InitialFree()
    ensures DYNAMIC_PAYLOAD_TYPES == Unplaced(DYNAMIC_PAYLOAD_TYPES, PayloadTypes([]))
  {
    UnplacedSame(DYNAMIC_PAYLOAD_TYPES, PayloadTypes([]));
  }

  /**
   At every iteration the free list is exactly the dynamic types not yet placed, in
   their order; so a dynamic choice is always the first type that is not taken.
   */
  lemma {:induction false} PlaceAllFree(media: seq<Capability>)
    requires PlaceAll(media).Success?
    ensures var p := PlaceAll(media).value; p.free == Unplaced(DYNAMIC_PAYLOAD_TYPES, PayloadTypes(p.codecs))
  {
    if media == [] {
      InitialFree();
    } else {
      var before, last := media[..|media| - 1], media[|media| - 1];
      PlaceAllFree(before);
      PlaceAllShape(before);
      if Base(last).Some? {
        var p, r := PlaceAll(before).value, PlaceAll(media).value;
        BaseRegular(last);
        PlaceFrees(p, last, Base(last).value);
        UnplacedMore(DYNAMIC_PAYLOAD_TYPES, PayloadTypes(p.codecs), PayloadTypes(r.codecs[|p.codecs|..]));
        TypesJoin(p.codecs, r.codecs);
      }
    }
  }

  /**
   Which types a codec gets: a dynamic choice is the first free type, and the RTX codec
   of a video codec gets the first type that is free after that.
   */
  lemma PlaceChooses(p: Placing, media: Capability, base: Capability)
    requires FreeListOk(p) && Regular(base) && Place(p, media, base).Success?
    ensures var added := Place(p, media, base).value.codecs[|p.codecs|..];
      var fixed := if media.preferredPayloadType != 0 then media.preferredPayloadType else base.preferredPayloadType;
      && |added| == (if base.kind == "video" then 2 else 1)
      && (if fixed != 0 then added[0].preferredPayloadType == fixed
          else p.free != [] && added[0].preferredPayloadType == p.free[0])
      && (base.kind == "video" ==>
            var left := Unplaced(p.free, {added[0].preferredPayloadType});
            left != [] && added[1].preferredPayloadType == left[0])
  {
    ChooseFrees(p, media, base);
  }

  lemma TypesJoin(front: seq<Capability>, codecs: seq<Capability>)
    requires |front| <= |codecs| && codecs[..|front|] == front
    ensures PayloadTypes(codecs) == PayloadTypes(front) + PayloadTypes(codecs[|front|..])
  {
    assert codecs == front + codecs[|front|..];
  }

  predicate IsSupported(media: Capability) {
    Validates(media.info) && Base(media).Some?
  }

  function SupportedMedia(media: seq<Capability>): seq<Capability> {
    if media == [] then []
    else SupportedMedia(media[..|media| - 1]) + if IsSupported(media[|media| - 1]) then [media[|media| - 1]] else []
  }

  function NonRtx(codecs: seq<Capability>): seq<Capability> {
    if codecs == [] then []
    else (if IsRtx(codecs[0].info) then [] else [codecs[0]]) + NonRtx(codecs[1..])
  }

  /** Every requested parameter with its requested value, and every other one of the supported codec. */
  predicate HasParameters(all: Parameters, requested: Parameters, base: Parameters) {
    && (forall name :: name in requested ==> name in all && all[name] == requested[name])
    && (forall name :: name in base && name !in requested ==> name in all && all[name] == base[name])
    && (forall name :: name in all ==> name in requested || name in base)
  }

  /** These conditions determine the entry's codec. */
  lemma OffersMerged(entry: Capability, media: Capability)
    requires IsSupported(media) && Offers(entry, media)
    ensures entry.info == Merged(media, Base(media).value)
  {
    assert entry.info.parameters == Merged(media, Base(media).value).parameters;
  }

  /**
   `entry` is what the router offers for the requested codec `media`: the
   supported codec with the requested parameters on top, and the requested
   payload type if there is one, else the static one, else a dynamic one.
   */
  predicate Offers(entry: Capability, media: Capability)
    requires IsSupported(media)
  {
    var base := Base(media).value;
    && entry.kind == base.kind && !IsRtx(entry.info)
    && entry.info.mimeType == base.info.mimeType && entry.info.clockRate == base.info.clockRate
    && entry.info.channels == base.info.channels
    && HasParameters(entry.info.parameters, media.info.parameters, base.info.parameters)
    && if media.preferredPayloadType != 0 then entry.preferredPayloadType == media.preferredPayloadType
       else if base.preferredPayloadType != 0 then entry.preferredPayloadType == base.preferredPayloadType
       else 96 <= entry.preferredPayloadType <= 127
  }

  lemma {:induction false} NonRtxAppend(a: seq<Capability>, b: seq<Capability>)
    ensures NonRtx(a + b) == NonRtx(a) + NonRtx(b)
  {
    if a == [] {
      assert a + b == b;
    } else {
      assert (a + b)[1..] == a[1..] + b;
      NonRtxAppend(a[1..], b);
    }
  }

  lemma PlaceOffers(p: Placing, media: Capability)
    requires IsSupported(media) && FreeListOk(p) && Place(p, media, Base(media).value).Success?
    ensures var codecs := Place(p, media, Base(media).value).value.codecs;
      |NonRtx(codecs)| == |NonRtx(p.codecs)| + 1 && codecs[..|p.codecs|] == p.codecs
      && NonRtx(codecs)[..|NonRtx(p.codecs)|] == NonRtx(p.codecs)
      && Offers(NonRtx(codecs)[|NonRtx(p.codecs)|], media)
  {
    var base := Base(media).value;
    BaseRegular(media);
    var (pt, free) := ChoosePayloadType(media, base, p.free).value;
    var codec := Capability(base.kind, Merged(media, base), pt);
    assert MimeType(codec.info) == MimeType(base.info);
    assert p.free != [] ==> p.free[0] in p.free;
    assert NonRtx([codec]) == [codec];
    if codec.kind == "video" {
      var rtx := RtxFor(codec, free[0]);
      RtxShape(codec, free[0]);
      assert [codec, rtx][1..] == [rtx] && NonRtx([rtx]) == [];
      assert NonRtx([codec, rtx]) == [codec];
      NonRtxAppend(p.codecs, [codec, rtx]);
    } else {
      NonRtxAppend(p.codecs, [codec]);
    }
  }

  ghost predicate EntriesMatch(entries: seq<Capability>, requested: seq<Capability>) {
    |entries| == |requested|
    && forall i :: 0 <= i < |entries| ==> IsSupported(requested[i]) && Offers(entries[i], requested[i])
  }

  lemma EntriesMatchSnoc(entries: seq<Capability>, requested: seq<Capability>, all: seq<Capability>, media: Capability)
    requires EntriesMatch(entries, requested) && IsSupported(media)
    requires |all| == |entries| + 1 && all[..|entries|] == entries && Offers(all[|entries|], media)
    ensures EntriesMatch(all, requested + [media])
  {
    assert forall i :: 0 <= i < |entries| ==> all[i] == all[..|entries|][i];
  }

  /** The media entries are, in order, exactly what the supported requested codecs call for. */
  lemma {:induction false} PlaceAllOffers(media: seq<Capability>)
    requires PlaceAll(media).Success?
    ensures EntriesMatch(NonRtx(PlaceAll(media).value.codecs), SupportedMedia(media))
  {
    if media != [] {
      var before, last := media[..|media| - 1], media[|media| - 1];
      PlaceAllOffers(before);
      PlaceAllShape(before);
      if Base(last).Some? {
        PlaceOffers(PlaceAll(before).value, last);
var entries, all := NonRtx(PlaceAll(before).value.codecs), NonRtx(PlaceAll(media).value.codecs);
        EntriesMatchSnoc(entries, SupportedMedia(before), all, last);
      }
    }
  }

  lemma {:induction false} NonRtxMembers(codecs: seq<Capability>)
    ensures forall c :: c in NonRtx(codecs) <==> c in codecs && !IsRtx(c.info)
  {
    if codecs != [] {
      NonRtxMembers(codecs[1..]);
    }
  }

  predicate IsByte(pt: int) {
    0 <= pt < 0x100
  }

  predicate AllBytes(codecs: seq<Capability>) {
    forall c :: c in codecs ==> IsByte(c.preferredPayloadType)
  }

  /** An entry's type fits a byte exactly when the requested type does. */
  lemma OffersByte(entry: Capability, media: Capability)
    requires IsSupported(media) && Offers(entry, media)
    ensures IsByte(entry.preferredPayloadType) <==> IsByte(media.preferredPayloadType)
  {
    BaseRegular(media);
  }

  /** The payload types of the router's list fit a byte exactly when those of the supported requested codecs do. */
  lemma PlaceAllBytes(media: seq<Capability>)
    requires PlaceAll(media).Success?
    ensures AllBytes(PlaceAll(media).value.codecs) <==> AllBytes(SupportedMedia(media))
  {
    var codecs, requested := PlaceAll(media).value.codecs, SupportedMedia(media);
    var entries := NonRtx(codecs);
    PlaceAllShape(media);
    PlaceAllOffers(media);
    NonRtxMembers(codecs);
    forall i | 0 <= i < |entries|
      ensures IsByte(entries[i].preferredPayloadType) <==> IsByte(requested[i].preferredPayloadType)
    {
      OffersByte(entries[i], requested[i]);
    }
    assert forall i :: 0 <= i < |entries| ==> entries[i] in codecs && requested[i] in requested;
  }

  /** What a supported codec cannot be placed for, given the types placed and the dynamic types left. */
  predicate Refused(media: Capability, base: Capability, placed: set<int32>, left: seq<int32>) {
    var fixed := if media.preferredPayloadType != 0 then media.preferredPayloadType else base.preferredPayloadType;
    var video := base.kind == "video";
    if fixed != 0 then fixed in placed || (video && forall pt :: pt in left ==> pt == fixed)
    else |left| < if video then 2 else 1
  }

  /**
   When a request fails that was fine without its last codec: the codec is invalid, or
   it is supported and its requested or static type is taken, or no dynamic type is
   left where it or its RTX codec needs one. The claim is about one step, so automatic
   induction is off.
   */
  lemma {:induction false} PlacingFailsIff(media: seq<Capability>)
    requires media != [] && PlaceAll(media[..|media| - 1]).Success?
    ensures var last := media[|media| - 1];
      var placed := PayloadTypes(PlaceAll(media[..|media| - 1]).value.codecs);
      PlaceAll(media).Failure? <==>
        !Validates(last.info)
        || (Base(last).Some? && Refused(last, Base(last).value, placed, Unplaced(DYNAMIC_PAYLOAD_TYPES, placed)))
  {
    var before, last := media[..|media| - 1], media[|media| - 1];
    PlaceAllFree(before);
    PlaceAllShape(before);
    if Validates(last.info) && Base(last).Some? {
      BaseRegular(last);
      PlaceFailsIff(PlaceAll(before).value, last, Base(last).value);
    }
  }

  lemma PlaceFailsIff(p: Placing, media: Capability, base: Capability)
    requires FreeListOk(p) && Regular(base)
    ensures Place(p, media, base).Failure? <==> Refused(media, base, PayloadTypes(p.codecs), p.free)
  {
    RemoveDistinct(p.free, media.preferredPayloadType);
    if p.free != [] {
      assert p.free[0] in p.free;
    }
    if media.preferredPayloadType != 0 {
      var rest := Remove(p.free, media.preferredPayloadType);
      if rest != [] {
        assert rest[0] in rest;
      }
    }
  }

  method FindSupportedCodec(c: CodecInfo, table: seq<Capability>) returns (r: Option<Capability>)
    ensures r == FindLoose(c, table)
  {
    var i := 0;
    while i < |table|
      invariant 0 <= i <= |table| && FindLoose(c, table) == FindLoose(c, table[i..])
    {
      if Matches(c, table[i].info, false) {
        return Some(table[i]);
      }
      i := i + 1;
    }
    r := None;
  }

  lemma RemoveLater(free: seq<int32>, i: nat, pt: int32)
    requires i < |free| && free[i] != pt
    ensures free[..i] + Remove(free[i..], pt) == free[..i + 1] + Remove(free[i + 1..], pt)
  {
    assert free[i..][1..] == free[i + 1..];
    assert free[..i + 1] == free[..i] + [free[i]];
  }

  /** Erases the first occurrence of a payload type from the free list, if there is one. */
  method EraseFirst(free: seq<int32>, pt: int32) returns (r: seq<int32>)
    ensures r == Remove(free, pt)
  {
    var i := 0;
    while i < |free| && free[i] != pt
      invariant 0 <= i <= |free| && Remove(free, pt) == free[..i] + Remove(free[i..], pt)
    {
      RemoveLater(free, i, pt);
      i := i + 1;
    }
    if i < |free| {
      assert free[i..][1..] == free[i + 1..];
      r := free[..i] + free[i + 1..];
    } else {
      assert free[..i] == free;
      r := free;
    }
  }

  method HasPayloadType(codecs: seq<Capability>, pt: int32) returns (found: bool)
    ensures found <==> pt in PayloadTypes(codecs)
  {
    var i := 0;
    found := false;
    while i < |codecs|
      invariant 0 <= i <= |codecs| && pt !in PayloadTypes(codecs[..i])
    {
      if codecs[i].preferredPayloadType == pt {
        return true;
      }
      assert codecs[..i + 1] == codecs[..i] + [codecs[i]];
      i := i + 1;
    }
    assert codecs[..i] == codecs;
  }

  lemma {:induction false} FailurePersists(media: seq<Capability>, n: nat)
    requires n <= |media| && PlaceAll(media[..n]).Failure?
    ensures PlaceAll(media).Failure?
    decreases |media|
  {
    if n < |media| {
      assert media[..|media| - 1][..n] == media[..n];
      FailurePersists(media[..|media| - 1], n);
    } else {
      assert media[..n] == media;
    }
  }

  /** The body of the generator's loop for a supported codec. */
  method PlaceOne(codecs: seq<Capability>, free: seq<int32>, media: Capability, base: Capability)
    returns (r: Result<Placing>)
    ensures r == Place(Placing(codecs, free), media, base)
  {
    var pt, rest := media.preferredPayloadType, free;
    if pt != 0 {
      rest := EraseFirst(free, pt);
    } else if base.preferredPayloadType != 0 {
      pt := base.preferredPayloadType;
    } else if free == [] {
      return Failure;
    } else {
      pt, rest := free[0], free[1..];
    }
    var duplicate := HasPayloadType(codecs, pt);
    if duplicate {
      return Failure;
    }
    var codec := Capability(base.kind, Merged(media, base), pt);
    if codec.kind != "video" {
      return Success(Placing(codecs + [codec], rest));
    } else if rest == [] {
      return Failure;
    }
    r := Success(Placing(codecs + [codec, RtxFor(codec, rest[0])], rest[1..]));
  }

  lemma PlaceAllNext(media: seq<Capability>, i: nat)
    requires i < |media|
    ensures var before, last := PlaceAll(media[..i]), media[i];
      PlaceAll(media[..i + 1]) ==
        if before.Failure? || !Validates(last.info) then Failure
        else if Base(last).None? then before
        else Place(before.value, last, Base(last).value)
  {
    assert media[..i + 1][..i] == media[..i];
  }

  lemma {:induction false} Generated(media: seq<Capability>, p: Placing)
    requires PlaceAll(media) == Success(p)
    ensures WellPlaced(p.codecs) && EntriesMatch(NonRtx(p.codecs), SupportedMedia(media))
  {
    PlaceAllShape(media);
    PlaceAllOffers(media);
  }

  /** The generator's loop over the requested codecs. */
  method GenerateRouterRtpCapabilities(mediaCodecs: seq<Capability>) returns (r: Result<seq<Capability>>)
    ensures r == match PlaceAll(mediaCodecs) case Failure => Failure case Success(p) => Success(p.codecs)
    ensures r.Success? ==> WellPlaced(r.value) && EntriesMatch(NonRtx(r.value), SupportedMedia(mediaCodecs))
  {
    var codecs: seq<Capability>, free := [], DYNAMIC_PAYLOAD_TYPES;
    var i := 0;
    while i < |mediaCodecs|
      invariant 0 <= i <= |mediaCodecs|
      invariant PlaceAll(mediaCodecs[..i]) == Success(Placing(codecs, free))
    {
      var media := mediaCodecs[i];
      PlaceAllNext(mediaCodecs, i);
      if !Validates(media.info) {
        FailurePersists(mediaCodecs, i + 1);
        return Failure;
      }
      var found := FindSupportedCodec(Normalized(media.info), Supported());
      if found.Some? {
        var placed := PlaceOne(codecs, free, media, found.value);
        if placed.Failure? {
          FailurePersists(mediaCodecs, i + 1);
          return Failure;
        }
        codecs, free := placed.value.codecs, placed.value.free;
      }
      i := i + 1;
    }
    assert mediaCodecs[..i] == mediaCodecs;
    Generated(mediaCodecs, Placing(codecs, free));
    r := Success(codecs);
  }
}
