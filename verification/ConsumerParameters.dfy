/** The parameters a router offers consumers of a producer, and what one consumer gets of them. */
module ConsumerParameters {
  import opened Common
  import opened Codecs
  import opened RouterCapabilities
  import opened ProducerMapping

  const NO_CAPABILITY := Capability("", CodecInfo("", 0, 0, map[]), 0)

  function FindCapability(caps: seq<Capability>, pt: int): Capability {
    if caps == [] then NO_CAPABILITY
    else if caps[0].preferredPayloadType == pt then caps[0]
    else FindCapability(caps[1..], pt)
  }

  /** The first RTX capability whose apt is `pt`. */
  function FirstRtx(caps: seq<Capability>, pt: int): Option<Capability> {
    if caps == [] then None
    else if IsRtxFor(caps[0], pt) then Some(caps[0])
    else FirstRtx(caps[1..], pt)
  }

  /** A media codec as the router offers it: the router's entry with the producer's parameters. */
  function OfferedMedia(c: CodecParameters, cap: Capability): CodecParameters {
    CodecParameters(
      CodecInfo(cap.info.mimeType, cap.info.clockRate, ToUint8(cap.info.channels), c.info.parameters),
      ToUint8(cap.preferredPayloadType))
  }

  function OfferedRtx(cap: Capability): CodecParameters {
    CodecParameters(
      CodecInfo(cap.info.mimeType, cap.info.clockRate, 0, cap.info.parameters),
      ToUint8(cap.preferredPayloadType))
  }

  function Offer(c: CodecParameters, caps: seq<Capability>, m: Mapping): seq<CodecParameters> {
    if IsRtx(c.info) then []
    else
      var media := OfferedMedia(c, FindCapability(caps, Lookup(m, c)));
      var rtx := FirstRtx(caps, media.payloadType);
      [media] + if rtx.Some? then [OfferedRtx(rtx.value)] else []
  }

  /** The consumable codecs of a producer. */
  function Consumable(codecs: seq<CodecParameters>, caps: seq<Capability>, m: Mapping): seq<CodecParameters> {
    if codecs == [] then []
    else Consumable(codecs[..|codecs| - 1], caps, m) + Offer(codecs[|codecs| - 1], caps, m)
  }

  /** Whether a remote endpoint supports a codec; the remote capability is the first operand of the match. */
  predicate RemoteMatches(c: CodecParameters, remote: seq<Capability>) {
    exists i :: 0 <= i < |remote| && Matches(remote[i].info, c.info, true)
  }

  /** The codecs of `codecs` that the remote endpoint supports, with RTX only if enabled. */
  function Matched(codecs: seq<CodecParameters>, remote: seq<Capability>, enableRtx: bool): seq<CodecParameters> {
    if codecs == [] then []
    else
      var rest, c := Matched(codecs[..|codecs| - 1], remote, enableRtx), codecs[|codecs| - 1];
      if (enableRtx || !IsRtx(c.info)) && RemoteMatches(c, remote) then rest + [c] else rest
  }

  predicate AllValid(remote: seq<Capability>) {
    forall i :: 0 <= i < |remote| ==> Validates(remote[i].info)
  }

  /** The router's answer to whether a consumer can be created; invalid capabilities give no. */
  predicate CanConsume(codecs: seq<CodecParameters>, remote: seq<Capability>) {
    var matching := Matched(codecs, remote, true);
    AllValid(remote) && matching != [] && !IsRtx(matching[0].info)
  }

  predicate HasType(codecs: seq<CodecParameters>, pt: int) {
    exists i :: 0 <= i < |codecs| && codecs[i].payloadType == pt
  }

  /** Step `i` of the sanitizing loop: an RTX codec whose apt is not in the list is erased. */
  function SanitizeAt(codecs: seq<CodecParameters>, i: nat): seq<CodecParameters>
    requires i < |codecs|
  {
    if IsRtx(codecs[i].info) && !HasType(codecs, Apt(codecs[i].info)) then codecs[..i] + codecs[i + 1..] else codecs
  }

  /** The loop from index `n - 1` down to 0; the flag tells whether an RTX codec was found to be useful. */
  function Sanitize(codecs: seq<CodecParameters>, n: nat, rtxSupported: bool): (seq<CodecParameters>, bool)
    requires n <= |codecs|
  {
    if n == 0 then (codecs, rtxSupported)
    else
      Sanitize(SanitizeAt(codecs, n - 1), n - 1,
        rtxSupported || (IsRtx(codecs[n - 1].info) && HasType(codecs, Apt(codecs[n - 1].info))))
  }

  function Sanitized(codecs: seq<CodecParameters>): (seq<CodecParameters>, bool) {
    Sanitize(codecs, |codecs|, false)
  }

  /** The codecs a consumer gets, and whether it gets RTX. */
  function ConsumerCodecs(codecs: seq<CodecParameters>, remote: seq<Capability>, enableRtx: bool)
    : Result<(seq<CodecParameters>, bool)>
  {
    if !AllValid(remote) then Failure
    else
      var r := Sanitized(Matched(codecs, remote, enableRtx));
      if r.0 == [] || IsRtx(r.0[0].info) then Failure else Success(r)
  }

  /** Media codecs are useful, and RTX codecs whose apt is the payload type of some codec of `all`. */
  predicate IsUseful(c: CodecParameters, all: seq<CodecParameters>) {
    IsRtx(c.info) ==> HasType(all, Apt(c.info))
  }

  function Useful(codecs: seq<CodecParameters>, all: seq<CodecParameters>): seq<CodecParameters> {
    if codecs == [] then []
    else
      var rest, c := Useful(codecs[..|codecs| - 1], all), codecs[|codecs| - 1];
      if IsUseful(c, all) then rest + [c] else rest
  }

  predicate HasRtx(codecs: seq<CodecParameters>) {
    exists i :: 0 <= i < |codecs| && IsRtx(codecs[i].info)
  }

  /** No apt of an RTX codec is the payload type of an RTX codec. */
  predicate AptsNameNoRtx(codecs: seq<CodecParameters>) {
    forall c, d :: c in codecs && d in codecs && IsRtx(c.info) && IsRtx(d.info) ==> d.payloadType != Apt(c.info)
  }

  lemma {:induction false} UsefulMembers(codecs: seq<CodecParameters>, all: seq<CodecParameters>)
    ensures forall c :: c in Useful(codecs, all) <==> c in codecs && IsUseful(c, all)
  {
    if codecs != [] {
      assert codecs == codecs[..|codecs| - 1] + [codecs[|codecs| - 1]];
      UsefulMembers(codecs[..|codecs| - 1], all);
    }
  }

  /** On lists whose apts name no RTX codec, what the loop erases cannot change what is in use. */
  lemma SameTypes(all: seq<CodecParameters>, kept: seq<CodecParameters>, c: CodecParameters)
    requires AptsNameNoRtx(all) && c in all && IsRtx(c.info)
    requires forall d :: d in kept ==> d in all
    requires forall d :: d in all && !IsRtx(d.info) ==> d in kept
    ensures HasType(kept, Apt(c.info)) <==> HasType(all, Apt(c.info))
  {
    if HasType(kept, Apt(c.info)) {
      var i :| 0 <= i < |kept| && kept[i].payloadType == Apt(c.info);
      assert kept[i] in all;
    }
    if HasType(all, Apt(c.info)) {
      var i :| 0 <= i < |all| && all[i].payloadType == Apt(c.info);
      assert all[i] in all && all[i] in kept;
    }
  }

  /** `tail` has exactly the useful codecs of `all` from index `n` on. */
  ghost predicate HasUseful(all: seq<CodecParameters>, n: nat, tail: seq<CodecParameters>)
    requires n <= |all|
  {
    forall c :: c in tail <==> c in all[n..] && IsUseful(c, all)
  }

  lemma HasUsefulStep(all: seq<CodecParameters>, n: nat, tail: seq<CodecParameters>)
    requires 0 < n <= |all| && HasUseful(all, n, tail)
    ensures HasUseful(all, n - 1, if IsUseful(all[n - 1], all) then [all[n - 1]] + tail else tail)
  {
    assert all[n - 1..] == [all[n - 1]] + all[n..];
  }

  /** One step of the loop, when everything from `n` on has been filtered. */
  lemma SanitizeStep(all: seq<CodecParameters>, n: nat, tail: seq<CodecParameters>)
    requires 0 < n <= |all| && AptsNameNoRtx(all)
    requires HasUseful(all, n, tail)
    ensures var codecs, c := all[..n] + tail, all[n - 1];
      && SanitizeAt(codecs, n - 1) == all[..n - 1] + (if IsUseful(c, all) then [c] + tail else tail)
      && (IsRtx(c.info) ==> (HasType(codecs, Apt(c.info)) <==> IsUseful(c, all)))
  {
    var codecs, c := all[..n] + tail, all[n - 1];
    assert all == all[..n] + all[n..];
    if IsRtx(c.info) {
      SameTypes(all, codecs, c);
    }
    assert codecs[..n - 1] + codecs[n..] == all[..n - 1] + tail;
    assert codecs == all[..n - 1] + ([c] + tail);
  }

  lemma UsefulSnoc(all: seq<CodecParameters>, n: nat)
    requires 0 < n <= |all|
    ensures var u, u', c := Useful(all[..n - 1], all), Useful(all[..n], all), all[n - 1];
      && u' == (if IsUseful(c, all) then u + [c] else u)
      && (HasRtx(u') <==> HasRtx(u) || (IsRtx(c.info) && IsUseful(c, all)))
  {
    var u, u', c := Useful(all[..n - 1], all), Useful(all[..n], all), all[n - 1];
    assert all[..n][..n - 1] == all[..n - 1];
    if HasRtx(u) {
      var i :| 0 <= i < |u| && IsRtx(u[i].info);
      assert u'[i] == u[i];
    }
    if IsUseful(c, all) {
      assert u'[|u|] == c;
    }
  }

  lemma SanitizeUnroll(codecs: seq<CodecParameters>, n: nat, flag: bool)
    requires 0 < n <= |codecs|
    ensures var c := codecs[n - 1];
      Sanitize(codecs, n, flag)
        == Sanitize(SanitizeAt(codecs, n - 1), n - 1, flag || (IsRtx(c.info) && HasType(codecs, Apt(c.info))))
  {
  }

  /** The tail after one more step. */
  function Extended(all: seq<CodecParameters>, n: nat, tail: seq<CodecParameters>): seq<CodecParameters>
    requires 0 < n <= |all|
  {
    if IsUseful(all[n - 1], all) then [all[n - 1]] + tail else tail
  }

  lemma SanitizeOnce(all: seq<CodecParameters>, n: nat, tail: seq<CodecParameters>, flag: bool)
    requires 0 < n <= |all| && AptsNameNoRtx(all) && HasUseful(all, n, tail)
    ensures var c := all[n - 1];
      Sanitize(all[..n] + tail, n, flag)
        == Sanitize(all[..n - 1] + Extended(all, n, tail), n - 1, flag || (IsRtx(c.info) && IsUseful(c, all)))
  {
    SanitizeUnroll(all[..n] + tail, n, flag);
    SanitizeStep(all, n, tail);
  }

  lemma UsefulExtended(all: seq<CodecParameters>, n: nat, tail: seq<CodecParameters>)
    requires 0 < n <= |all|
    ensures Useful(all[..n - 1], all) + Extended(all, n, tail) == Useful(all[..n], all) + tail
  {
    UsefulSnoc(all, n);
  }

  /**
   The backward erasing loop is a filter: after index `n`, the part from `n` on is
   the useful part of what was there.
   */
  lemma {:induction false} SanitizeIsFilter(all: seq<CodecParameters>, n: nat, tail: seq<CodecParameters>, flag: bool)
    requires n <= |all| && AptsNameNoRtx(all) && HasUseful(all, n, tail)
    ensures Sanitize(all[..n] + tail, n, flag) == (Useful(all[..n], all) + tail, flag || HasRtx(Useful(all[..n], all)))
  {
    if n == 0 {
      assert all[..0] + tail == tail && Useful(all[..0], all) == [];
    } else {
      var c := all[n - 1];
      SanitizeOnce(all, n, tail, flag);
      HasUsefulStep(all, n, tail);
      SanitizeIsFilter(all, n - 1, Extended(all, n, tail), flag || (IsRtx(c.info) && IsUseful(c, all)));
      UsefulExtended(all, n, tail);
      UsefulSnoc(all, n);
    }
  }

  /** The sanitized list: exactly the useful codecs in order; RTX is reported exactly when an RTX codec remains. */
  lemma SanitizedMeaning(codecs: seq<CodecParameters>)
    requires AptsNameNoRtx(codecs)
    ensures Sanitized(codecs).0 == Useful(codecs, codecs)
    ensures Sanitized(codecs).1 <==> HasRtx(Sanitized(codecs).0)
  {
    assert codecs[..|codecs|] == codecs && codecs[|codecs|..] == [] && codecs + [] == codecs;
    SanitizeIsFilter(codecs, |codecs|, [], false);
    assert Useful(codecs, codecs) + [] == Useful(codecs, codecs);
  }

  lemma {:induction false} SanitizeKeepsHead(codecs: seq<CodecParameters>, n: nat, flag: bool)
    requires n <= |codecs| && codecs != [] && !IsRtx(codecs[0].info)
    ensures var r := Sanitize(codecs, n, flag).0; r != [] && r[0] == codecs[0]
  {
    if n > 0 {
      SanitizeKeepsHead(SanitizeAt(codecs, n - 1), n - 1,
        flag || (IsRtx(codecs[n - 1].info) && HasType(codecs, Apt(codecs[n - 1].info))));
    }
  }

  predicate HasMedia(codecs: seq<CodecParameters>) {
    exists i :: 0 <= i < |codecs| && !IsRtx(codecs[i].info)
  }

  /**
   Without RTX, the matched list has media exactly when the full one has, and begins
   with the same codec if that is media.
   */
  lemma {:induction false} MatchedWithoutRtx(codecs: seq<CodecParameters>, remote: seq<Capability>)
    ensures var all, plain := Matched(codecs, remote, true), Matched(codecs, remote, false);
      && !HasRtx(plain) && (plain != [] <==> HasMedia(all))
      && (all != [] && !IsRtx(all[0].info) ==> plain != [] && plain[0] == all[0])
  {
    if codecs != [] {
      var front := codecs[..|codecs| - 1];
      MatchedWithoutRtx(front, remote);
      var all, plain := Matched(codecs, remote, true), Matched(codecs, remote, false);
      if HasMedia(Matched(front, remote, true)) {
        var i :| 0 <= i < |Matched(front, remote, true)| && !IsRtx(Matched(front, remote, true)[i].info);
        assert all[i] == Matched(front, remote, true)[i];
      } else if plain != [] {
        assert all[|all| - 1] == codecs[|codecs| - 1];
      }
    }
  }

  /** A yes to canConsume is never followed by a refusal for want of media codecs. */
  lemma CanConsumeSuffices(codecs: seq<CodecParameters>, remote: seq<Capability>, enableRtx: bool)
    requires CanConsume(codecs, remote)
    ensures ConsumerCodecs(codecs, remote, enableRtx).Success?
  {
    MatchedWithoutRtx(codecs, remote);
    var matched := Matched(codecs, remote, enableRtx);
    SanitizeKeepsHead(matched, |matched|, false);
  }

  lemma {:induction false} SanitizeWithoutRtx(codecs: seq<CodecParameters>, n: nat, flag: bool)
    requires n <= |codecs| && !HasRtx(codecs)
    ensures Sanitize(codecs, n, flag) == (codecs, flag)
  {
    if n > 0 {
      SanitizeWithoutRtx(codecs, n - 1, flag);
    }
  }

  /** Whether a consumer without RTX can be created: exactly when some media codec is supported. */
  lemma SuccessWithoutRtx(codecs: seq<CodecParameters>, remote: seq<Capability>)
    ensures ConsumerCodecs(codecs, remote, false).Success?
       <==> AllValid(remote) && HasMedia(Matched(codecs, remote, true))
  {
    MatchedWithoutRtx(codecs, remote);
    var plain := Matched(codecs, remote, false);
    SanitizeWithoutRtx(plain, |plain|, false);
  }

  /** Codec `k` is media, and everything before it is useless. */
  predicate LeadsAt(codecs: seq<CodecParameters>, all: seq<CodecParameters>, k: nat) {
    k < |codecs| && !IsRtx(codecs[k].info) && forall i :: 0 <= i < k ==> !IsUseful(codecs[i], all)
  }

  predicate LeadsWithMedia(codecs: seq<CodecParameters>, all: seq<CodecParameters>) {
    exists k :: 0 <= k < |codecs| && LeadsAt(codecs, all, k)
  }

  lemma {:induction false} UsefulHead(codecs: seq<CodecParameters>, all: seq<CodecParameters>)
    ensures var u := Useful(codecs, all); u != [] && !IsRtx(u[0].info) <==> LeadsWithMedia(codecs, all)
    ensures Useful(codecs, all) == [] <==> forall c :: c in codecs ==> !IsUseful(c, all)
  {
    if codecs != [] {
      var front, last := codecs[..|codecs| - 1], codecs[|codecs| - 1];
      assert codecs == front + [last];
      UsefulHead(front, all);
      if LeadsWithMedia(front, all) {
        var k :| 0 <= k < |front| && LeadsAt(front, all, k);
        assert LeadsAt(codecs, all, k);
      } else if Useful(front, all) == [] && !IsRtx(last.info) {
        assert LeadsAt(codecs, all, |front|);
      } else if k :| 0 <= k < |codecs| && LeadsAt(codecs, all, k) {
        assert k < |front| ==> LeadsAt(front, all, k);
        UsefulMembers(front, all);
        assert false;
      }
    }
  }

  /** Whether a consumer with RTX can be created: exactly when only useless codecs precede a supported media codec. */
  lemma SuccessWithRtx(codecs: seq<CodecParameters>, remote: seq<Capability>)
    requires AptsNameNoRtx(codecs)
    ensures var all := Matched(codecs, remote, true);
      ConsumerCodecs(codecs, remote, true).Success? <==> AllValid(remote) && LeadsWithMedia(all, all)
  {
    var all := Matched(codecs, remote, true);
    MatchedMembers(codecs, remote, true);
    SanitizedMeaning(all);
    UsefulHead(all, all);
  }

  lemma {:induction false} SanitizeMembers(codecs: seq<CodecParameters>, n: nat, flag: bool)
    requires n <= |codecs|
    ensures forall c :: c in Sanitize(codecs, n, flag).0 ==> c in codecs
  {
    if n > 0 {
      SanitizeUnroll(codecs, n, flag);
      var c := codecs[n - 1];
      SanitizeMembers(SanitizeAt(codecs, n - 1), n - 1, flag || (IsRtx(c.info) && HasType(codecs, Apt(c.info))));
    }
  }

  /** Over any list, whoever can be created with RTX can be created without. */
  lemma WithRtxThenWithout(codecs: seq<CodecParameters>, remote: seq<Capability>)
    requires ConsumerCodecs(codecs, remote, true).Success?
    ensures ConsumerCodecs(codecs, remote, false).Success?
  {
    var all := Matched(codecs, remote, true);
    SanitizeMembers(all, |all|, false);
    assert Sanitized(all).0[0] in all;
    SuccessWithoutRtx(codecs, remote);
  }

  lemma OfferedSorts(c: CodecParameters, cap: Capability)
    ensures MimeType(OfferedMedia(c, cap).info) == MimeType(OfferedRtx(cap).info) == MimeType(cap.info)
    ensures IsRtx(OfferedMedia(c, cap).info) == IsRtx(OfferedRtx(cap).info) == IsRtx(cap.info)
    ensures Apt(OfferedRtx(cap).info) == Apt(cap.info)
  {
  }

  /** `c` carries the payload type of a router entry of the same sort. */
  ghost predicate FromRouter(caps: seq<Capability>, c: CodecParameters) {
    exists cap :: cap in caps && cap.preferredPayloadType == c.payloadType && IsRtx(cap.info) == IsRtx(c.info)
  }

  /** The shape of a consumable list: router payload types, and each RTX codec directly after its media codec. */
  ghost predicate WellOffered(caps: seq<Capability>, codecs: seq<CodecParameters>) {
    (forall c :: c in codecs ==> FromRouter(caps, c)) && RtxFollows(codecs)
  }

  predicate RtxFollows(codecs: seq<CodecParameters>) {
    forall i :: 0 <= i < |codecs| && IsRtx(codecs[i].info) ==>
      i > 0 && !IsRtx(codecs[i - 1].info) && codecs[i - 1].payloadType == Apt(codecs[i].info)
  }

  /** Offered media codecs of one payload type have one key. */
  ghost predicate KeyPerType(codecs: seq<CodecParameters>) {
    forall c, d :: c in codecs && d in codecs && !IsRtx(c.info) && !IsRtx(d.info) && c.payloadType == d.payloadType
      ==> CodecKey(c.info, true) == CodecKey(d.info, true)
  }

  /** The media codec of RTX codec `r`, which directly precedes it among the supported ones if it is supported. */
  ghost predicate Preceded(codecs: seq<CodecParameters>, remote: seq<Capability>, all: seq<CodecParameters>, i: nat)
    requires i < |all|
  {
    exists media :: media in codecs && !IsRtx(media.info) && media.payloadType == Apt(all[i].info)
      && (RemoteMatches(media, remote) ==> i > 0 && all[i - 1] == media)
  }

  ghost predicate AllPreceded(codecs: seq<CodecParameters>, remote: seq<Capability>, all: seq<CodecParameters>) {
    forall i :: 0 <= i < |all| && IsRtx(all[i].info) ==> Preceded(codecs, remote, all, i)
  }

  lemma PrecededLater(front: seq<CodecParameters>, last: CodecParameters, remote: seq<Capability>,
                      before: seq<CodecParameters>, all: seq<CodecParameters>, i: nat)
    requires i < |before| <= |all| && all[..|before|] == before && Preceded(front, remote, before, i)
    ensures Preceded(front + [last], remote, all, i)
  {
    assert all[i] == before[i] && (i > 0 ==> all[i - 1] == before[i - 1]);
    var media :| media in front && !IsRtx(media.info) && media.payloadType == Apt(before[i].info)
      && (RemoteMatches(media, remote) ==> i > 0 && before[i - 1] == media);
    assert media in front + [last];
  }

  lemma {:induction false} MatchedPreceded(codecs: seq<CodecParameters>, remote: seq<Capability>)
    requires RtxFollows(codecs)
    ensures AllPreceded(codecs, remote, Matched(codecs, remote, true))
  {
    if codecs != [] {
      var front, last := codecs[..|codecs| - 1], codecs[|codecs| - 1];
      assert codecs == front + [last];
      MatchedPreceded(front, remote);
      var before, all := Matched(front, remote, true), Matched(codecs, remote, true);
      forall i | 0 <= i < |all| && IsRtx(all[i].info) ensures Preceded(codecs, remote, all, i) {
        if i < |before| {
          assert IsRtx(before[i].info);
          PrecededLater(front, last, remote, before, all, i);
        } else {
          LastPreceded(codecs, remote);
        }
      }
    }
  }

  lemma LastPreceded(codecs: seq<CodecParameters>, remote: seq<Capability>)
    requires codecs != [] && RtxFollows(codecs)
    requires IsRtx(codecs[|codecs| - 1].info) && RemoteMatches(codecs[|codecs| - 1], remote)
    ensures var all := Matched(codecs, remote, true); all != [] && Preceded(codecs, remote, all, |all| - 1)
  {
    var media := codecs[|codecs| - 2];
    var front := codecs[..|codecs| - 1];
    assert media in codecs && front[|front| - 1] == media;
  }

  lemma SameKeySupported(c: CodecParameters, d: CodecParameters, remote: seq<Capability>)
    requires CodecKey(c.info, true) == CodecKey(d.info, true) && RemoteMatches(c, remote)
    ensures RemoteMatches(d, remote)
  {
    var i :| 0 <= i < |remote| && Matches(remote[i].info, c.info, true);
    MatchIffSameKey(remote[i].info, c.info, true, false);
    MatchIffSameKey(remote[i].info, d.info, true, false);
  }

  /** Before the first supported media codec there are only RTX codecs whose media codec is not supported. */
  lemma UselessBefore(caps: seq<Capability>, codecs: seq<CodecParameters>, remote: seq<Capability>, i: nat)
    requires WellPlaced(caps) && WellOffered(caps, codecs) && KeyPerType(codecs)
    requires var all := Matched(codecs, remote, true);
      i < |all| && IsRtx(all[i].info) && (i > 0 ==> IsRtx(all[i - 1].info))
    ensures var all := Matched(codecs, remote, true); !IsUseful(all[i], all)
  {
    var all := Matched(codecs, remote, true);
    MatchedMembers(codecs, remote, true);
    MatchedPreceded(codecs, remote);
    WellOfferedApts(caps, codecs);
    assert Preceded(codecs, remote, all, i);
    var media :| media in codecs && !IsRtx(media.info) && media.payloadType == Apt(all[i].info)
      && (RemoteMatches(media, remote) ==> i > 0 && all[i - 1] == media);
    if HasType(all, Apt(all[i].info)) {
      var j :| 0 <= j < |all| && all[j].payloadType == Apt(all[i].info);
      assert all[j] in all && all[i] in all;
      SameKeySupported(all[j], media, remote);
    }
  }

  /** Over a router's offer, enabling RTX does not decide whether a consumer can be created. */
  lemma RtxDoesNotDecide(caps: seq<Capability>, codecs: seq<CodecParameters>, remote: seq<Capability>)
    requires WellPlaced(caps) && WellOffered(caps, codecs) && KeyPerType(codecs)
    ensures ConsumerCodecs(codecs, remote, true).Success? <==> ConsumerCodecs(codecs, remote, false).Success?
  {
    var all := Matched(codecs, remote, true);
    WellOfferedApts(caps, codecs);
    SuccessWithRtx(codecs, remote);
    SuccessWithoutRtx(codecs, remote);
    if HasMedia(all) {
      var k := FirstMedia(all);
      forall i | 0 <= i < k ensures !IsUseful(all[i], all) {
        UselessBefore(caps, codecs, remote, i);
      }
      assert LeadsAt(all, all, k);
    }
  }

  lemma {:induction false} FirstMedia(codecs: seq<CodecParameters>) returns (k: nat)
    requires HasMedia(codecs)
    ensures k < |codecs| && !IsRtx(codecs[k].info) && forall i :: 0 <= i < k ==> IsRtx(codecs[i].info)
  {
    if !IsRtx(codecs[0].info) {
      k := 0;
    } else {
      var i :| 0 <= i < |codecs| && !IsRtx(codecs[i].info);
      assert codecs[1..][i - 1] == codecs[i];
      k := FirstMedia(codecs[1..]);
      k := k + 1;
    }
  }

  /**
   The converse of `CanConsumeSuffices` fails, and this is exactly when, with RTX
   enabled or not: canConsume says no although a consumer can be created if and only
   if the endpoint supports some media codec but the first supported entry of the
   offer is an RTX codec.
   */
  lemma CanConsumeGap(caps: seq<Capability>, codecs: seq<CodecParameters>, remote: seq<Capability>, enableRtx: bool)
    requires enableRtx ==> WellPlaced(caps) && WellOffered(caps, codecs) && KeyPerType(codecs)
    ensures var all := Matched(codecs, remote, true);
      (!CanConsume(codecs, remote) && ConsumerCodecs(codecs, remote, enableRtx).Success?)
      <==> AllValid(remote) && HasMedia(all) && IsRtx(all[0].info)
  {
    SuccessWithoutRtx(codecs, remote);
    if enableRtx {
      RtxDoesNotDecide(caps, codecs, remote);
    }
  }

  lemma FindCapabilityMeaning(caps: seq<Capability>, cap: Capability)
    requires WellPlaced(caps) && cap in caps
    ensures FindCapability(caps, cap.preferredPayloadType) == cap
  {
    FindCapabilityMember(caps, cap);
    SameEntry(caps, FindCapability(caps, cap.preferredPayloadType), cap);
  }

  lemma {:induction false} FindCapabilityMember(caps: seq<Capability>, cap: Capability)
    requires cap in caps
    ensures var r := FindCapability(caps, cap.preferredPayloadType);
      r in caps && r.preferredPayloadType == cap.preferredPayloadType
  {
    if caps[0].preferredPayloadType != cap.preferredPayloadType {
      FindCapabilityMember(caps[1..], cap);
    }
  }

  lemma {:induction false} FirstRtxMeaning(caps: seq<Capability>, pt: int)
    ensures var r := FirstRtx(caps, pt); r.Some? ==> r.value in caps && IsRtxFor(r.value, pt)
  {
    if caps != [] {
      FirstRtxMeaning(caps[1..], pt);
    }
  }

  /** The types of all entries that media codecs can be mapped to fit a byte. */
  predicate TypesFit(caps: seq<Capability>) {
    forall cap :: cap in caps && Leading(caps, cap) ==> IsByte(cap.preferredPayloadType)
  }

  /** Every media codec of the producer is offered under the payload type it is mapped to. */
  predicate TypesKept(codecs: seq<CodecParameters>, caps: seq<Capability>, m: Mapping) {
    forall c :: c in codecs && !IsRtx(c.info) ==> Offer(c, caps, m)[0].payloadType == Lookup(m, c)
  }

  lemma RtxTypeFits(caps: seq<Capability>, r: Capability)
    requires WellPlaced(caps) && r in caps && IsRtx(r.info)
    ensures IsByte(r.preferredPayloadType)
  {
    var i :| 0 <= i < |caps| && caps[i] == r;
  }

  /** The offer for a codec mapped to an entry whose type fits a byte. */
  lemma OfferOf(c: CodecParameters, caps: seq<Capability>, m: Mapping, cap: Capability)
    requires WellPlaced(caps) && cap in caps && IsByte(cap.preferredPayloadType)
    requires !IsRtx(c.info) && Lookup(m, c) == cap.preferredPayloadType
    ensures var media, rtx := OfferedMedia(c, cap), FirstRtx(caps, cap.preferredPayloadType);
      && media.payloadType == cap.preferredPayloadType
      && Offer(c, caps, m) == if rtx.Some? then [media, OfferedRtx(rtx.value)] else [media]
  {
    FindCapabilityMeaning(caps, cap);
  }

  /** A media codec is mapped to this entry, whose type fits a byte. */
  ghost predicate EntryOf(caps: seq<Capability>, m: Mapping, c: CodecParameters, cap: Capability) {
    && cap in caps && !IsRtx(cap.info) && IsByte(cap.preferredPayloadType)
    && !IsRtx(c.info) && c.payloadType in m && m[c.payloadType] == cap.preferredPayloadType
  }

  lemma TargetEntry(caps: seq<Capability>, m: Mapping, c: CodecParameters) returns (cap: Capability)
    requires TypesFit(caps) && !IsRtx(c.info) && Targets(caps, m, c.payloadType, false)
    ensures EntryOf(caps, m, c, cap)
  {
    cap :| cap in caps && Leading(caps, cap) && m[c.payloadType] == cap.preferredPayloadType;
  }

  lemma ShapeOf(c: CodecParameters, caps: seq<Capability>, m: Mapping, cap: Capability)
    requires WellPlaced(caps) && EntryOf(caps, m, c, cap)
    ensures WellOffered(caps, Offer(c, caps, m)) && Offer(c, caps, m)[0].payloadType == Lookup(m, c)
  {
    OfferOf(c, caps, m, cap);
    var media := OfferedMedia(c, cap);
    OfferedSorts(c, cap);
    assert FromRouter(caps, media);
    var rtx := FirstRtx(caps, media.payloadType);
    FirstRtxMeaning(caps, media.payloadType);
    if rtx.Some? {
      OfferedSorts(c, rtx.value);
      RtxTypeFits(caps, rtx.value);
      assert FromRouter(caps, OfferedRtx(rtx.value));
    }
  }

  lemma OfferShape(c: CodecParameters, caps: seq<Capability>, m: Mapping)
    requires WellPlaced(caps) && TypesFit(caps) && !IsRtx(c.info) && Targets(caps, m, c.payloadType, false)
    ensures WellOffered(caps, Offer(c, caps, m)) && Offer(c, caps, m)[0].payloadType == Lookup(m, c)
  {
    var cap := TargetEntry(caps, m, c);
    ShapeOf(c, caps, m, cap);
  }

  /** The producer that has just one entry's codec is mapped to that entry if the entry leads. */
  lemma LoneMapping(cap: Capability, caps: seq<Capability>)
    requires Leading(caps, cap)
    ensures MapCodecs([CodecParameters(cap.info, 0)], caps) == Success(map[0 := cap.preferredPayloadType])
  {
    var codecs := [CodecParameters(cap.info, 0)];
    assert codecs[..0] == [];
    assert MapMedia(codecs, caps) == Success(map[0 := cap.preferredPayloadType]);
    assert MapRtx(codecs, 0, caps) == MapMedia(codecs, caps) == MapRtx(codecs, 1, caps);
  }

  /**
   When payload types survive the narrowing to 8 bits: every producer that a router's
   list accepts is offered under the types it is mapped to, exactly when the types of
   all entries that media codecs can be mapped to fit a byte.
   */
  lemma OfferedTypesExact(caps: seq<Capability>)
    requires WellPlaced(caps)
    ensures (forall codecs: seq<CodecParameters> ::
              NoClash(codecs) && MapCodecs(codecs, caps).Success?
              ==> TypesKept(codecs, caps, MapCodecs(codecs, caps).value))
       <==> TypesFit(caps)
  {
    if TypesFit(caps) {
      forall codecs: seq<CodecParameters> | NoClash(codecs) && MapCodecs(codecs, caps).Success?
        ensures TypesKept(codecs, caps, MapCodecs(codecs, caps).value)
      {
        MediaStaysMedia(codecs, caps);
        var m := MapCodecs(codecs, caps).value;
        forall c | c in codecs && !IsRtx(c.info) ensures Offer(c, caps, m)[0].payloadType == Lookup(m, c) {
          OfferShape(c, caps, m);
        }
      }
    }
    forall cap | cap in caps && Leading(caps, cap) && !IsByte(cap.preferredPayloadType)
      ensures exists codecs: seq<CodecParameters> :: NoClash(codecs) && MapCodecs(codecs, caps).Success?
                && !TypesKept(codecs, caps, MapCodecs(codecs, caps).value)
    {
      WideTypeLost(cap, caps);
    }
  }

  lemma WideTypeLost(cap: Capability, caps: seq<Capability>)
    requires WellPlaced(caps) && cap in caps && Leading(caps, cap) && !IsByte(cap.preferredPayloadType)
    ensures var codecs := [CodecParameters(cap.info, 0)];
      && NoClash(codecs) && MapCodecs(codecs, caps).Success?
      && !TypesKept(codecs, caps, MapCodecs(codecs, caps).value)
  {
    var c, m := CodecParameters(cap.info, 0), map[0 := cap.preferredPayloadType];
    LoneMapping(cap, caps);
    FindCapabilityMeaning(caps, cap);
    assert Lookup(m, c) == cap.preferredPayloadType;
    assert Offer(c, caps, m)[0].payloadType != Lookup(m, c);
    assert c in [c];
  }

  lemma {:induction false} ConsumableShape(codecs: seq<CodecParameters>, caps: seq<Capability>, m: Mapping)
    requires WellPlaced(caps) && TypesFit(caps)
    requires forall c :: c in codecs && !IsRtx(c.info) ==> Targets(caps, m, c.payloadType, false)
    ensures WellOffered(caps, Consumable(codecs, caps, m))
  {
    if codecs != [] {
      var front, last := codecs[..|codecs| - 1], codecs[|codecs| - 1];
      assert codecs == front + [last];
      ConsumableShape(front, caps, m);
      if !IsRtx(last.info) {
        OfferShape(last, caps, m);
      }
      assert forall c ::
          c in Consumable(codecs, caps, m) ==> c in Consumable(front, caps, m) || c in Offer(last, caps, m);
    }
  }

  /** `e` is what the router offers for some media codec of the producer that matches its entry. */
  ghost predicate OfferedFor(e: CodecParameters, codecs: seq<CodecParameters>, caps: seq<Capability>, m: Mapping) {
    exists c :: c in codecs && !IsRtx(c.info) && MediaToMedia(caps, m, c)
                && e == OfferedMedia(c, FindStrict(c.info, caps).value)
  }

  lemma {:induction false} ConsumableMembers(codecs: seq<CodecParameters>, caps: seq<Capability>, m: Mapping)
    requires WellPlaced(caps)
    requires forall c :: c in codecs && !IsRtx(c.info) ==> MediaToMedia(caps, m, c)
    ensures forall e :: e in Consumable(codecs, caps, m) && !IsRtx(e.info) ==> OfferedFor(e, codecs, caps, m)
  {
    if codecs != [] {
      var front, last := codecs[..|codecs| - 1], codecs[|codecs| - 1];
      assert codecs == front + [last];
      ConsumableMembers(front, caps, m);
      forall e | e in Consumable(codecs, caps, m) && !IsRtx(e.info) ensures OfferedFor(e, codecs, caps, m) {
        if e in Consumable(front, caps, m) {
          assert OfferedFor(e, front, caps, m);
          var c :| c in front && !IsRtx(c.info) && MediaToMedia(caps, m, c)
            && e == OfferedMedia(c, FindStrict(c.info, caps).value);
          assert c in codecs;
        } else {
          OfferedEntry(e, last, caps, m);
        }
      }
    }
  }

  lemma OfferedEntry(e: CodecParameters, c: CodecParameters, caps: seq<Capability>, m: Mapping)
    requires WellPlaced(caps) && MediaToMedia(caps, m, c) && e in Offer(c, caps, m) && !IsRtx(e.info)
    ensures e == OfferedMedia(c, FindStrict(c.info, caps).value) && !IsRtx(c.info)
  {
    var cap := FindStrict(c.info, caps).value;
    FindCapabilityMeaning(caps, cap);
    FirstRtxMeaning(caps, OfferedMedia(c, cap).payloadType);
    var rtx := FirstRtx(caps, OfferedMedia(c, cap).payloadType);
    if rtx.Some? {
      assert MimeType(OfferedRtx(rtx.value).info) == MimeType(rtx.value.info);
    }
  }

  /** Two codecs mapped to one entry are offered with one key. */
  lemma OneKeyPerEntry(c: CodecParameters, d: CodecParameters, cap: Capability)
    requires Matches(c.info, cap.info, true) && Matches(d.info, cap.info, true)
    ensures CodecKey(OfferedMedia(c, cap).info, true) == CodecKey(OfferedMedia(d, cap).info, true)
  {
    MatchIffSameKey(c.info, cap.info, true, false);
    MatchIffSameKey(d.info, cap.info, true, false);
    OfferedSorts(c, cap);
    OfferedSorts(d, cap);
  }

  /** Where every media codec goes to the entry it matches, offered media codecs of one type have one key. */
  lemma ConsumableKeys(codecs: seq<CodecParameters>, caps: seq<Capability>, m: Mapping)
    requires WellPlaced(caps) && TypesFit(caps)
    requires forall c :: c in codecs && !IsRtx(c.info) ==> MediaToMedia(caps, m, c)
    ensures KeyPerType(Consumable(codecs, caps, m))
  {
    var offered := Consumable(codecs, caps, m);
    ConsumableMembers(codecs, caps, m);
    forall e, f | e in offered && f in offered && !IsRtx(e.info) && !IsRtx(f.info) && e.payloadType == f.payloadType
      ensures CodecKey(e.info, true) == CodecKey(f.info, true)
    {
      OfferedPair(e, f, codecs, caps, m);
    }
  }

  lemma OfferedOrigin(e: CodecParameters, codecs: seq<CodecParameters>, caps: seq<Capability>, m: Mapping)
    returns (c: CodecParameters, cap: Capability)
    requires TypesFit(caps) && OfferedFor(e, codecs, caps, m)
    ensures cap in caps && Matches(c.info, cap.info, true)
    ensures e == OfferedMedia(c, cap) && e.payloadType == cap.preferredPayloadType
  {
    c :| c in codecs && !IsRtx(c.info) && MediaToMedia(caps, m, c)
      && e == OfferedMedia(c, FindStrict(c.info, caps).value);
    cap := FindStrict(c.info, caps).value;
    FoundLeads(c.info, caps);
  }

  lemma OfferedPair(
    e: CodecParameters, f: CodecParameters, codecs: seq<CodecParameters>, caps: seq<Capability>, m: Mapping)
    requires WellPlaced(caps) && TypesFit(caps) && e.payloadType == f.payloadType
    requires OfferedFor(e, codecs, caps, m) && OfferedFor(f, codecs, caps, m)
    ensures CodecKey(e.info, true) == CodecKey(f.info, true)
  {
    var c, x := OfferedOrigin(e, codecs, caps, m);
    var d, y := OfferedOrigin(f, codecs, caps, m);
    SameEntry(caps, x, y);
    OneKeyPerEntry(c, d, x);
  }

  /** The codec offered for a matching router entry keeps the key it was matched by. */
  lemma OfferedKeepsKey(c: CodecParameters, cap: Capability)
    requires Matches(c.info, cap.info, true) && 0 <= c.info.channels < 0x100
    ensures CodecKey(OfferedMedia(c, cap).info, true) == CodecKey(c.info, true)
  {
    MatchIffSameKey(c.info, cap.info, true, false);
    OfferedSorts(c, cap);
  }

  lemma OfferedRtxApt(caps: seq<Capability>, cap: Capability)
    requires WellPlaced(caps) && cap in caps && !IsRtx(cap.info)
    ensures var rtx := FirstRtx(caps, cap.preferredPayloadType);
      && (rtx.Some? ==>
            IsRtx(OfferedRtx(rtx.value).info) && Apt(OfferedRtx(rtx.value).info) == cap.preferredPayloadType)
      && (cap.kind == "video" ==> rtx.Some?)
  {
    var rtx := FirstRtx(caps, cap.preferredPayloadType);
    FirstRtxMeaning(caps, cap.preferredPayloadType);
    if rtx.Some? {
      assert MimeType(OfferedRtx(rtx.value).info) == MimeType(rtx.value.info);
    }
    if cap.kind == "video" {
      var i :| 0 <= i < |caps| && caps[i] == cap;
      FirstRtxFound(caps, caps[i + 1]);
    }
  }

  /**
   What one media codec contributes: a codec that keeps its key and parameters, with
   the type of the entry it maps to, and directly after it the RTX codec of that
   entry, which every video entry has.
   */
  lemma OfferContents(c: CodecParameters, caps: seq<Capability>, m: Mapping)
    requires WellPlaced(caps) && TypesFit(caps) && !IsRtx(c.info) && MediaToMedia(caps, m, c)
    requires 0 <= c.info.channels < 0x100
    ensures var offer := Offer(c, caps, m);
      && 1 <= |offer| <= 2 && offer[0].payloadType == m[c.payloadType]
      && offer[0].info.parameters == c.info.parameters && CodecKey(offer[0].info, true) == CodecKey(c.info, true)
      && (|offer| == 2 ==> IsRtx(offer[1].info) && Apt(offer[1].info) == offer[0].payloadType)
      && (FindCapability(caps, m[c.payloadType]).kind == "video" ==> |offer| == 2)
  {
    var cap := FindStrict(c.info, caps).value;
    FoundLeads(c.info, caps);
    FindCapabilityMeaning(caps, cap);
    OfferOf(c, caps, m, cap);
    OfferedKeepsKey(c, cap);
    OfferedRtxApt(caps, cap);
  }

  /** The media codecs of a list, in order. */
  function MediaOf(codecs: seq<CodecParameters>): seq<CodecParameters> {
    if codecs == [] then []
    else
      var rest, last := MediaOf(codecs[..|codecs| - 1]), codecs[|codecs| - 1];
      if IsRtx(last.info) then rest else rest + [last]
  }

  lemma {:induction false} MediaOfAppend(a: seq<CodecParameters>, b: seq<CodecParameters>)
    ensures MediaOf(a + b) == MediaOf(a) + MediaOf(b)
  {
    if b == [] {
      assert a + b == a;
    } else {
      assert (a + b)[..|a + b| - 1] == a + b[..|b| - 1];
      MediaOfAppend(a, b[..|b| - 1]);
    }
  }

  lemma MediaOfSnoc(front: seq<CodecParameters>, last: CodecParameters)
    ensures MediaOf(front + [last]) == if IsRtx(last.info) then MediaOf(front) else MediaOf(front) + [last]
  {
    assert (front + [last])[..|front|] == front;
  }

  lemma MediaOfOffer(media: CodecParameters, rtx: CodecParameters)
    requires !IsRtx(media.info) && IsRtx(rtx.info)
    ensures MediaOf([media]) == [media] && MediaOf([media, rtx]) == [media]
  {
    MediaOfSnoc([], media);
    assert [] + [media] == [media];
    MediaOfSnoc([media], rtx);
    assert [media] + [rtx] == [media, rtx];
  }

  lemma {:induction false} MediaOfMembers(codecs: seq<CodecParameters>)
    ensures forall c :: c in MediaOf(codecs) <==> c in codecs && !IsRtx(c.info)
  {
    if codecs != [] {
      assert codecs == codecs[..|codecs| - 1] + [codecs[|codecs| - 1]];
      MediaOfMembers(codecs[..|codecs| - 1]);
    }
  }

  /** `e` offers the producer's codec `c`: its parameters under its mapped type, and what it is matched by. */
  ghost predicate OffersCodec(caps: seq<Capability>, m: Mapping, e: CodecParameters, c: CodecParameters) {
    && c.payloadType in m && e.payloadType == m[c.payloadType] && e.info.parameters == c.info.parameters
    && (MediaToMedia(caps, m, c) ==> SameName(e.info.mimeType, c.info.mimeType) && e.info.clockRate == c.info.clockRate)
    && (MediaToMedia(caps, m, c) && 0 <= c.info.channels < 0x100 ==> CodecKey(e.info, true) == CodecKey(c.info, true))
  }

  /** The entries offer the codecs, one each and in order. */
  ghost predicate OffersAll(
    caps: seq<Capability>, m: Mapping, entries: seq<CodecParameters>, codecs: seq<CodecParameters>)
  {
    |entries| == |codecs| && forall i :: 0 <= i < |codecs| ==> OffersCodec(caps, m, entries[i], codecs[i])
  }

  /** Every offered codec of a video entry is directly followed by that entry's RTX codec. */
  ghost predicate VideoFollowed(caps: seq<Capability>, offered: seq<CodecParameters>) {
    forall i, k ::
      0 <= i < |offered| && 0 <= k < |caps| && !IsRtx(offered[i].info)
      && caps[k].kind == "video" && !IsRtx(caps[k].info)
      && offered[i].payloadType == caps[k].preferredPayloadType
      ==> i + 1 < |offered| && k + 1 < |caps| && RtxBehind(offered[i + 1], offered[i], caps[k + 1])
  }

  predicate RtxBehind(r: CodecParameters, media: CodecParameters, cap: Capability) {
    IsRtx(r.info) && Apt(r.info) == media.payloadType && r.payloadType == cap.preferredPayloadType
    && r.info.clockRate == cap.info.clockRate
  }

  lemma OfferedMediaOnly(c: CodecParameters, caps: seq<Capability>, m: Mapping, cap: Capability)
    requires WellPlaced(caps) && EntryOf(caps, m, c, cap)
    ensures MediaOf(Offer(c, caps, m)) == [OfferedMedia(c, cap)]
  {
    OfferOf(c, caps, m, cap);
    OfferedSorts(c, cap);
    FirstRtxMeaning(caps, cap.preferredPayloadType);
    var rtx := FirstRtx(caps, cap.preferredPayloadType);
    if rtx.Some? {
      OfferedSorts(c, rtx.value);
      MediaOfOffer(OfferedMedia(c, cap), OfferedRtx(rtx.value));
    } else {
      MediaOfSnoc([], OfferedMedia(c, cap));
      assert [] + [OfferedMedia(c, cap)] == [OfferedMedia(c, cap)];
    }
  }

  lemma OneOffered(c: CodecParameters, caps: seq<Capability>, m: Mapping)
    requires WellPlaced(caps) && TypesFit(caps) && !IsRtx(c.info) && Targets(caps, m, c.payloadType, false)
    ensures OffersAll(caps, m, MediaOf(Offer(c, caps, m)), [c])
  {
    var cap := TargetEntry(caps, m, c);
    OfferedMediaOnly(c, caps, m, cap);
    if MediaToMedia(caps, m, c) {
      OfferedFields(c, caps, m, cap);
    }
  }

  lemma OfferedFields(c: CodecParameters, caps: seq<Capability>, m: Mapping, cap: Capability)
    requires WellPlaced(caps) && MediaToMedia(caps, m, c) && cap in caps && m[c.payloadType] == cap.preferredPayloadType
    ensures var e := OfferedMedia(c, cap);
      && SameName(e.info.mimeType, c.info.mimeType) && e.info.clockRate == c.info.clockRate
      && (0 <= c.info.channels < 0x100 ==> CodecKey(e.info, true) == CodecKey(c.info, true))
  {
    SameEntry(caps, cap, FindStrict(c.info, caps).value);
    MatchNeeds(cap.info, c.info, true);
    MatchLaws(c.info, cap.info, c.info, true);
    if 0 <= c.info.channels < 0x100 {
      OfferedKeepsKey(c, cap);
    }
  }

  /** In a router's list the RTX entry that is found for a video entry is the next one. */
  lemma NextIsRtx(caps: seq<Capability>, k: nat)
    requires WellPlaced(caps) && k < |caps| && caps[k].kind == "video" && !IsRtx(caps[k].info)
    ensures k + 1 < |caps| && FirstRtx(caps, caps[k].preferredPayloadType) == Some(caps[k + 1])
  {
    FirstRtxMeaning(caps, caps[k].preferredPayloadType);
    FirstRtxFound(caps, caps[k + 1]);
    AptNamesMedia(caps, caps[k + 1]);
  }

  lemma OneFollowed(c: CodecParameters, caps: seq<Capability>, m: Mapping, cap: Capability)
    requires WellPlaced(caps) && EntryOf(caps, m, c, cap)
    ensures VideoFollowed(caps, Offer(c, caps, m))
  {
    var offer := Offer(c, caps, m);
    forall i, k |
      0 <= i < |offer| && 0 <= k < |caps| && !IsRtx(offer[i].info) && caps[k].kind == "video" && !IsRtx(caps[k].info)
      && offer[i].payloadType == caps[k].preferredPayloadType
      ensures i + 1 < |offer| && k + 1 < |caps| && RtxBehind(offer[i + 1], offer[i], caps[k + 1])
    {
      MediaIsFirst(c, caps, m, cap, i);
      FollowedAt(c, caps, m, cap, k);
    }
  }

  lemma FollowedAt(c: CodecParameters, caps: seq<Capability>, m: Mapping, cap: Capability, k: nat)
    requires WellPlaced(caps) && EntryOf(caps, m, c, cap)
    requires k < |caps| && caps[k].kind == "video" && !IsRtx(caps[k].info)
    requires Offer(c, caps, m)[0].payloadType == caps[k].preferredPayloadType
    ensures var offer := Offer(c, caps, m);
      |offer| == 2 && k + 1 < |caps| && RtxBehind(offer[1], offer[0], caps[k + 1])
  {
    OfferOf(c, caps, m, cap);
    SameEntry(caps, cap, caps[k]);
    NextIsRtx(caps, k);
    RtxBehindOffered(caps, c, k);
  }

  lemma MediaIsFirst(c: CodecParameters, caps: seq<Capability>, m: Mapping, cap: Capability, i: nat)
    requires WellPlaced(caps) && EntryOf(caps, m, c, cap)
    requires i < |Offer(c, caps, m)| && !IsRtx(Offer(c, caps, m)[i].info)
    ensures i == 0
  {
    OfferOf(c, caps, m, cap);
    if i == 1 {
      FirstRtxMeaning(caps, cap.preferredPayloadType);
      OfferedSorts(c, FirstRtx(caps, cap.preferredPayloadType).value);
      assert false;
    }
  }

  lemma RtxBehindOffered(caps: seq<Capability>, c: CodecParameters, k: nat)
    requires WellPlaced(caps) && k + 1 < |caps| && IsByte(caps[k].preferredPayloadType)
    requires IsRtxFor(caps[k + 1], caps[k].preferredPayloadType)
    ensures RtxBehind(OfferedRtx(caps[k + 1]), OfferedMedia(c, caps[k]), caps[k + 1])
  {
    OfferedSorts(c, caps[k + 1]);
    RtxTypeFits(caps, caps[k + 1]);
  }

  lemma OffersJoin(caps: seq<Capability>, m: Mapping, entries: seq<CodecParameters>, codecs: seq<CodecParameters>,
                   more: seq<CodecParameters>, c: CodecParameters)
    requires OffersAll(caps, m, entries, codecs) && OffersAll(caps, m, more, [c])
    ensures OffersAll(caps, m, entries + more, codecs + [c])
  {
    assert more[0] == (entries + more)[|entries|];
  }

  lemma FollowedJoin(caps: seq<Capability>, a: seq<CodecParameters>, b: seq<CodecParameters>)
    requires VideoFollowed(caps, a) && VideoFollowed(caps, b)
    ensures VideoFollowed(caps, a + b)
  {
    var all := a + b;
    forall i, k |
      0 <= i < |all| && 0 <= k < |caps| && !IsRtx(all[i].info) && caps[k].kind == "video" && !IsRtx(caps[k].info)
      && all[i].payloadType == caps[k].preferredPayloadType
      ensures i + 1 < |all| && k + 1 < |caps| && RtxBehind(all[i + 1], all[i], caps[k + 1])
    {
      if i < |a| {
        assert all[i] == a[i] && i + 1 < |a| && all[i + 1] == a[i + 1];
      } else {
        assert all[i] == b[i - |a|] && i - |a| + 1 < |b| && all[i + 1] == b[i - |a| + 1];
      }
    }
  }

  /**
   The whole consumable list: its media codecs offer the producer's media codecs, one
   each and in order, with their parameters under their mapped types; and each one of a
   video entry is directly followed by its RTX codec.
   */
  lemma {:induction false} ConsumableLists(codecs: seq<CodecParameters>, caps: seq<Capability>, m: Mapping)
    requires WellPlaced(caps) && TypesFit(caps)
    requires forall c :: c in codecs && !IsRtx(c.info) ==> Targets(caps, m, c.payloadType, false)
    ensures OffersAll(caps, m, MediaOf(Consumable(codecs, caps, m)), MediaOf(codecs))
    ensures VideoFollowed(caps, Consumable(codecs, caps, m))
  {
    if codecs != [] {
      var front, last := codecs[..|codecs| - 1], codecs[|codecs| - 1];
      assert codecs == front + [last];
      ConsumableLists(front, caps, m);
      if !IsRtx(last.info) {
        MediaOfAppend(Consumable(front, caps, m), Offer(last, caps, m));
        OneOffered(last, caps, m);
        var cap := TargetEntry(caps, m, last);
        OneFollowed(last, caps, m, cap);
        OffersJoin(caps, m, MediaOf(Consumable(front, caps, m)), MediaOf(front), MediaOf(Offer(last, caps, m)), last);
        FollowedJoin(caps, Consumable(front, caps, m), Offer(last, caps, m));
      } else {
        assert Consumable(codecs, caps, m) == Consumable(front, caps, m) + [] == Consumable(front, caps, m);
      }
    }
  }

  /** The codecs of a list that the remote endpoint supports, in order. */
  function SupportedBy(codecs: seq<CodecParameters>, remote: seq<Capability>): seq<CodecParameters> {
    if codecs == [] then []
    else
      var rest, last := SupportedBy(codecs[..|codecs| - 1], remote), codecs[|codecs| - 1];
      if RemoteMatches(last, remote) then rest + [last] else rest
  }

  lemma SupportedBySnoc(front: seq<CodecParameters>, last: CodecParameters, remote: seq<Capability>)
    ensures SupportedBy(front + [last], remote)
         == if RemoteMatches(last, remote) then SupportedBy(front, remote) + [last] else SupportedBy(front, remote)
  {
    assert (front + [last])[..|front|] == front;
  }

  lemma {:induction false} MatchedMedia(codecs: seq<CodecParameters>, remote: seq<Capability>, enableRtx: bool)
    ensures MediaOf(Matched(codecs, remote, enableRtx)) == SupportedBy(MediaOf(codecs), remote)
  {
    if codecs != [] {
      var front, last := codecs[..|codecs| - 1], codecs[|codecs| - 1];
      MatchedMedia(front, remote, enableRtx);
      MediaOfSnoc(Matched(front, remote, enableRtx), last);
      if !IsRtx(last.info) {
        SupportedBySnoc(MediaOf(front), last, remote);
      }
    }
  }

  lemma {:induction false} UsefulMedia(codecs: seq<CodecParameters>, all: seq<CodecParameters>)
    ensures MediaOf(Useful(codecs, all)) == MediaOf(codecs)
  {
    if codecs != [] {
      var front, last := codecs[..|codecs| - 1], codecs[|codecs| - 1];
      UsefulMedia(front, all);
      MediaOfSnoc(Useful(front, all), last);
    }
  }

  /** What a consumer gets of the offered media codecs: those its endpoint supports, in order. */
  lemma ConsumerMedia(codecs: seq<CodecParameters>, remote: seq<Capability>, enableRtx: bool)
    requires AptsNameNoRtx(codecs) && ConsumerCodecs(codecs, remote, enableRtx).Success?
    ensures MediaOf(ConsumerCodecs(codecs, remote, enableRtx).value.0) == SupportedBy(MediaOf(codecs), remote)
  {
    var matched := Matched(codecs, remote, enableRtx);
    MatchedMembers(codecs, remote, enableRtx);
    SanitizedMeaning(matched);
    UsefulMedia(matched, matched);
    MatchedMedia(codecs, remote, enableRtx);
  }

  /** Filtering by support keeps two lists in step if their codecs have the same keys. */
  lemma {:induction false} SupportedInStep(caps: seq<Capability>, m: Mapping, entries: seq<CodecParameters>,
                                           codecs: seq<CodecParameters>, remote: seq<Capability>)
    requires OffersAll(caps, m, entries, codecs)
    requires forall i :: 0 <= i < |codecs| ==> CodecKey(entries[i].info, true) == CodecKey(codecs[i].info, true)
    ensures OffersAll(caps, m, SupportedBy(entries, remote), SupportedBy(codecs, remote))
    decreases |codecs|
  {
    if codecs != [] {
      var n := |codecs| - 1;
      SupportedInStep(caps, m, entries[..n], codecs[..n], remote);
      if RemoteMatches(entries[n], remote) {
        SameKeySupported(entries[n], codecs[n], remote);
      }
      if RemoteMatches(codecs[n], remote) {
        SameKeySupported(codecs[n], entries[n], remote);
        var kept, supported := SupportedBy(entries[..n], remote), SupportedBy(codecs[..n], remote);
        OffersJoin(caps, m, kept, supported, [entries[n]], codecs[n]);
      }
    }
  }

  lemma {:induction false} FirstRtxFound(caps: seq<Capability>, r: Capability)
    requires r in caps && IsRtx(r.info)
    ensures FirstRtx(caps, Apt(r.info)).Some?
  {
    if !IsRtxFor(caps[0], Apt(r.info)) {
      FirstRtxFound(caps[1..], r);
    }
  }

  lemma WellOfferedApts(caps: seq<Capability>, codecs: seq<CodecParameters>)
    requires WellPlaced(caps) && WellOffered(caps, codecs)
    ensures AptsNameNoRtx(codecs)
  {
    forall c, d | c in codecs && d in codecs && IsRtx(c.info) && IsRtx(d.info) ensures d.payloadType != Apt(c.info) {
      var i :| 0 <= i < |codecs| && codecs[i] == c;
      assert codecs[i - 1] in codecs;
      var x :| x in caps && x.preferredPayloadType == codecs[i - 1].payloadType && !IsRtx(x.info);
      var y :| y in caps && y.preferredPayloadType == d.payloadType && IsRtx(y.info);
      if x.preferredPayloadType == y.preferredPayloadType {
        SameEntry(caps, x, y);
      }
    }
  }

  lemma {:induction false} MatchedMembers(codecs: seq<CodecParameters>, remote: seq<Capability>, enableRtx: bool)
    ensures forall c :: (c in Matched(codecs, remote, enableRtx)
                         <==> c in codecs && (enableRtx || !IsRtx(c.info)) && RemoteMatches(c, remote))
  {
    if codecs != [] {
      assert codecs == codecs[..|codecs| - 1] + [codecs[|codecs| - 1]];
      MatchedMembers(codecs[..|codecs| - 1], remote, enableRtx);
    }
  }

  method SearchByType(caps: seq<Capability>, pt: int) returns (r: Capability)
    ensures r == FindCapability(caps, pt)
  {
    var i := 0;
    while i < |caps|
      invariant 0 <= i <= |caps| && FindCapability(caps, pt) == FindCapability(caps[i..], pt)
    {
      if caps[i].preferredPayloadType == pt {
        return caps[i];
      }
      i := i + 1;
    }
    r := NO_CAPABILITY;
  }

  method SearchFirstRtx(caps: seq<Capability>, pt: int) returns (r: Option<Capability>)
    ensures r == FirstRtx(caps, pt)
  {
    var i := 0;
    while i < |caps|
      invariant 0 <= i <= |caps| && FirstRtx(caps, pt) == FirstRtx(caps[i..], pt)
    {
      if IsRtxFor(caps[i], pt) {
        return Some(caps[i]);
      }
      i := i + 1;
    }
    r := None;
  }

  method GetConsumableRtpParameters(codecs: seq<CodecParameters>, caps: seq<Capability>, m: Mapping)
    returns (consumable: seq<CodecParameters>)
    ensures consumable == Consumable(codecs, caps, m)
  {
    consumable := [];
    var i := 0;
    while i < |codecs|
      invariant 0 <= i <= |codecs| && consumable == Consumable(codecs[..i], caps, m)
    {
      assert codecs[..i + 1][..i] == codecs[..i];
      if !IsRtx(codecs[i].info) {
        var cap := SearchByType(caps, Lookup(m, codecs[i]));
        var media := OfferedMedia(codecs[i], cap);
        var rtx := SearchFirstRtx(caps, media.payloadType);
        consumable := consumable + [media];
        if rtx.Some? {
          consumable := consumable + [OfferedRtx(rtx.value)];
          assert Offer(codecs[i], caps, m) == [media] + [OfferedRtx(rtx.value)];
          assert consumable == Consumable(codecs[..i], caps, m) + ([media] + [OfferedRtx(rtx.value)]);
        }
      }
      i := i + 1;
    }
    assert codecs[..i] == codecs;
  }

  method IsSupportedRemotely(c: CodecParameters, remote: seq<Capability>) returns (found: bool)
    ensures found <==> RemoteMatches(c, remote)
  {
    var i := 0;
    while i < |remote|
      invariant 0 <= i <= |remote| && forall j :: 0 <= j < i ==> !Matches(remote[j].info, c.info, true)
    {
      if Matches(remote[i].info, c.info, true) {
        return true;
      }
      i := i + 1;
    }
    found := false;
  }

  method Validate(remote: seq<Capability>) returns (ok: bool)
    ensures ok <==> AllValid(remote)
  {
    var i := 0;
    while i < |remote|
      invariant 0 <= i <= |remote| && forall j :: 0 <= j < i ==> Validates(remote[j].info)
    {
      if !Validates(remote[i].info) {
        return false;
      }
      i := i + 1;
    }
    ok := true;
  }

  method CollectMatching(codecs: seq<CodecParameters>, remote: seq<Capability>, enableRtx: bool)
    returns (matching: seq<CodecParameters>)
    ensures matching == Matched(codecs, remote, enableRtx)
  {
    matching := [];
    var i := 0;
    while i < |codecs|
      invariant 0 <= i <= |codecs| && matching == Matched(codecs[..i], remote, enableRtx)
    {
      assert codecs[..i + 1][..i] == codecs[..i];
      if enableRtx || !IsRtx(codecs[i].info) {
        var found := IsSupportedRemotely(codecs[i], remote);
        if found {
          matching := matching + [codecs[i]];
        }
      }
      i := i + 1;
    }
    assert codecs[..i] == codecs;
  }

  /** The router's answer for a producer id; an unknown producer gives no. */
  method CheckCanConsume(producers: map<string, seq<CodecParameters>>, producerId: string, remote: seq<Capability>)
    returns (yes: bool)
    ensures yes <==> producerId in producers && CanConsume(producers[producerId], remote)
    ensures yes ==> forall enableRtx :: ConsumerCodecs(producers[producerId], remote, enableRtx).Success?
  {
    if producerId !in producers {
      return false;
    }
    var codecs := producers[producerId];
    var valid := Validate(remote);
    if !valid {
      return false;
    }
    var matching := CollectMatching(codecs, remote, true);
    yes := matching != [] && !IsRtx(matching[0].info);
    if yes {
      forall enableRtx: bool ensures ConsumerCodecs(codecs, remote, enableRtx).Success? {
        CanConsumeSuffices(codecs, remote, enableRtx);
      }
    }
  }

  method ListHasType(codecs: seq<CodecParameters>, pt: int) returns (found: bool)
    ensures found <==> HasType(codecs, pt)
  {
    var i := 0;
    while i < |codecs|
      invariant 0 <= i <= |codecs| && forall j :: 0 <= j < i ==> codecs[j].payloadType != pt
    {
      if codecs[i].payloadType == pt {
        return true;
      }
      i := i + 1;
    }
    found := false;
  }

  /** The backward erasing loop. */
  method EraseUselessRtx(codecs: seq<CodecParameters>) returns (kept: seq<CodecParameters>, rtxSupported: bool)
    ensures (kept, rtxSupported) == Sanitized(codecs)
  {
    kept, rtxSupported := codecs, false;
    var n := |kept|;
    while n > 0
      invariant 0 <= n <= |kept|
      invariant Sanitize(kept, n, rtxSupported) == Sanitized(codecs)
    {
      SanitizeUnroll(kept, n, rtxSupported);
      n := n - 1;
      if IsRtx(kept[n].info) {
        var present := ListHasType(kept, Apt(kept[n].info));
        if present {
          rtxSupported := true;
        } else {
          assert SanitizeAt(kept, n) == kept[..n] + kept[n + 1..];
          kept := kept[..n] + kept[n + 1..];
        }
      }
    }
  }

  /** The consumer's codecs: the matching pass, the backward erasing pass, and the check for media. */
  method GetConsumerRtpParameters(codecs: seq<CodecParameters>, remote: seq<Capability>, enableRtx: bool)
    returns (r: Result<(seq<CodecParameters>, bool)>)
    ensures r == ConsumerCodecs(codecs, remote, enableRtx)
  {
    var valid := Validate(remote);
    if !valid {
      return Failure;
    }
    var kept := CollectMatching(codecs, remote, enableRtx);
    var rtxSupported: bool;
    kept, rtxSupported := EraseUselessRtx(kept);
    if kept == [] || IsRtx(kept[0].info) {
      return Failure;
    }
    r := Success((kept, rtxSupported));
  }
}
