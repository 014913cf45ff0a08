/**
 * The byte layouts a bus client and the two AllunoVHID drivers exchange: the
 * client's serialisers, the drivers' length-checked parsers, and the proof that
 * each parser is the exact inverse of the serialiser it faces.
 */
module Wire {
  import opened Common
  import opened Bytes

  const MAX_DEVICES: nat := 16
  const MAX_REPORT: nat := 512
  const MAX_DESCRIPTOR: nat := 4096
  const MAX_FEATURES: nat := 32
  const KIND_HID: u16 := 0
  const KIND_XUSB: u16 := 1
  const OUTPUT_KIND_REPORT: byte := 0
  const OUTPUT_KIND_FEATURE: byte := 1
  const PLUG_HEADER: nat := 12
  const REPORT_HEADER: nat := 8
  const OUTPUT_HEADER: nat := 4

  datatype Identity = Identity(vendor: u16, product: u16, version: u16)

  datatype Feature = Feature(id: byte, data: seq<byte>)

  datatype PlugRequest = PlugRequest(kind: u16, identity: Identity, descriptor: seq<byte>, features: seq<Feature>)

  datatype Status =
    | Success
    | BufferTooSmall
    | InvalidParameter
    | InsufficientResources
    | NotConnected
    | NotSupported
    | InvalidRequest
    | Pending
    | Cancelled

  // ---------------------------------------------------------------------------
  // The client's plug request
  // ---------------------------------------------------------------------------

  /** A feature report is at least its id byte, and repeats the id as its first byte. */
  predicate IsFeature(f: Feature) {
    1 <= |f.data| <= 512 && f.data[0] == f.id
  }

  predicate WithinLimits(r: PlugRequest) {
    || (&& r.kind == 0
        && 1 <= |r.descriptor| <= 4096
        && |r.features| <= 32
        && forall f :: f in r.features ==> IsFeature(f))
    || (r.kind == 1 && r.descriptor == [] && r.features == [])
  }

  function HeaderBytes(r: PlugRequest): (b: seq<byte>)
    ensures |b| == PLUG_HEADER
  {
    Le16(r.identity.vendor) + Le16(r.identity.product) + Le16(r.identity.version)
    + Le16(|r.descriptor| % 0x1_0000) + Le16(|r.features| % 0x1_0000) + Le16(r.kind)
  }

  function FeatureBytes(features: seq<Feature>): seq<byte> {
    if features == [] then []
    else Le16(|features[0].data| % 0x1_0000) + features[0].data + FeatureBytes(features[1..])
  }

  function PlugBytes(r: PlugRequest): seq<byte> {
    HeaderBytes(r) + r.descriptor + FeatureBytes(r.features)
  }

  lemma {:induction false} FeatureBytesSnoc(features: seq<Feature>, f: Feature)
    ensures FeatureBytes(features + [f]) == FeatureBytes(features) + Le16(|f.data| % 0x1_0000) + f.data
  {
    if features == [] {
      assert FeatureBytes([]) == [];
    } else {
      FeatureBytesSnoc(features[1..], f);
      assert (features + [f])[1..] == features[1..] + [f];
    }
  }

  /** A little-endian word at an offset. */
  predicate WordAt(b: seq<byte>, at: nat, w: nat) {
    at + 2 <= |b| && b[at] as int + 0x100 * b[at + 1] as int == w
  }

  /** The layout on the wire: six words, the descriptor, and each feature behind its length. */
  lemma PlugLayout(r: PlugRequest)
    ensures var b := PlugBytes(r);
            && WordAt(b, 0, r.identity.vendor) && WordAt(b, 2, r.identity.product) && WordAt(b, 4, r.identity.version)
            && WordAt(b, 6, |r.descriptor| % 0x1_0000) && WordAt(b, 8, |r.features| % 0x1_0000) && WordAt(b, 10, r.kind)
            && |b| >= 12 + |r.descriptor| && b[12..12 + |r.descriptor|] == r.descriptor
            && b[12 + |r.descriptor|..] == FeatureBytes(r.features)
  {
    var h := HeaderBytes(r);
    SixWords(Le16(r.identity.vendor), Le16(r.identity.product), Le16(r.identity.version),
             Le16(|r.descriptor| % 0x1_0000), Le16(|r.features| % 0x1_0000), Le16(r.kind));
    Le16Weighs(r.identity.vendor);
    Le16Weighs(r.identity.product);
    Le16Weighs(r.identity.version);
    Le16Weighs(|r.descriptor| % 0x1_0000);
    Le16Weighs(|r.features| % 0x1_0000);
    Le16Weighs(r.kind);
    hide Le16, FeatureBytes;
    assert forall k :: 0 <= k < 12 ==> PlugBytes(r)[k] == h[k];
    assert h[0] == h[0..2][0] && h[1] == h[0..2][1] && h[2] == h[2..4][0] && h[3] == h[2..4][1];
    assert h[4] == h[4..6][0] && h[5] == h[4..6][1] && h[6] == h[6..8][0] && h[7] == h[6..8][1];
    assert h[8] == h[8..10][0] && h[9] == h[8..10][1] && h[10] == h[10..12][0] && h[11] == h[10..12][1];
  }

  lemma FeatureLayout(f: Feature, rest: seq<Feature>)
    ensures FeatureBytes([]) == []
    ensures FeatureBytes([f] + rest) == [|f.data| % 0x100, |f.data| / 0x100 % 0x100] + f.data + FeatureBytes(rest)
  {
    assert ([f] + rest)[1..] == rest;
    WordBytes(|f.data|);
    hide Le16;
  }

  method PlugRequestOf(r: PlugRequest) returns (bytes: seq<byte>)
    ensures bytes == PlugBytes(r)
  {
    bytes := HeaderBytes(r);
    bytes := bytes + r.descriptor;
    for i := 0 to |r.features|
      invariant bytes == HeaderBytes(r) + r.descriptor + FeatureBytes(r.features[..i])
    {
      FeatureBytesSnoc(r.features[..i], r.features[i]);
      assert r.features[..i + 1] == r.features[..i] + [r.features[i]];
      bytes := bytes + Le16(|r.features[i].data| % 0x1_0000);
      bytes := bytes + r.features[i].data;
    }
    assert r.features[..|r.features|] == r.features;
  }

  // ---------------------------------------------------------------------------
  // The Windows driver's plug parser
  // ---------------------------------------------------------------------------

  datatype Header = Header(identity: Identity, descriptorLength: u16, featureCount: u16, kind: u16)

  function HeaderOf(b: seq<byte>): Header
    requires |b| >= PLUG_HEADER
  {
    Header(Identity(Le16At(b, 0), Le16At(b, 2), Le16At(b, 4)), Le16At(b, 6), Le16At(b, 8), Le16At(b, 10))
  }

  /** The checks made before a slot is reserved, in the driver's order. */
  function CheckHeader(b: seq<byte>): (s: Status)
    ensures s == Success ==> |b| >= PLUG_HEADER && PLUG_HEADER + HeaderOf(b).descriptorLength as int <= |b|
  {
    if |b| < PLUG_HEADER then BufferTooSmall
    else
      var h := HeaderOf(b);
      if h.kind != KIND_HID && h.kind != KIND_XUSB then InvalidParameter
      else if h.kind == KIND_XUSB && (h.descriptorLength != 0 || h.featureCount != 0) then InvalidParameter
      else if h.kind == KIND_HID && (h.descriptorLength == 0 || h.descriptorLength > MAX_DESCRIPTOR) then InvalidParameter
      else if h.featureCount > MAX_FEATURES then InvalidParameter
      else if |b| - PLUG_HEADER < h.descriptorLength as int then BufferTooSmall
      else Success
  }

  /** The feature entries read from cursor `at` on, or the status of the first bad entry. */
  function ParseFeatures(b: seq<byte>, at: nat, n: nat): (r: Result<seq<Feature>, Status>)
    requires at <= |b|
    ensures r.Ok? ==> |r.value| == n && forall f :: f in r.value ==> IsFeature(f)
    ensures r.Err? ==> r.error != Success
    decreases n
  {
    if n == 0 then Ok([])
    else if |b| - at < 2 then Err(BufferTooSmall)
    else
      var length := Le16At(b, at);
      if length == 0 || length > MAX_REPORT || |b| - (at + 2) < length as int then Err(InvalidParameter)
      else
        var end := at + 2 + length as int;
        var data := b[at + 2..end];
        match ParseFeatures(b, end, n - 1)
        case Err(s) => Err(s)
        case Ok(rest) => Ok([Feature(data[0], data)] + rest)
  }

  function ParsePlug(b: seq<byte>): Result<PlugRequest, Status> {
    var s := CheckHeader(b);
    if s != Success then Err(s)
    else
      var h := HeaderOf(b);
      var at := PLUG_HEADER + h.descriptorLength as int;
      match ParseFeatures(b, at, h.featureCount)
      case Err(e) => Err(e)
      case Ok(features) => Ok(PlugRequest(h.kind, h.identity, b[PLUG_HEADER..at], features))
  }

  /** Why a header is refused, by its bytes: too short, a word out of range, or a descriptor cut off. */
  lemma HeaderRefusals(b: seq<byte>)
    ensures |b| < 12 ==> CheckHeader(b) == BufferTooSmall
    ensures |b| >= 12 ==>
              var descriptor, features, kind := b[6] as int + 0x100 * b[7] as int, b[8] as int + 0x100 * b[9] as int,
                                                b[10] as int + 0x100 * b[11] as int;
              var inRange := features <= 32 && ((kind == 0 && 1 <= descriptor <= 4096)
                                                || (kind == 1 && descriptor == 0 && features == 0));
              CheckHeader(b) == if !inRange then InvalidParameter else if |b| < 12 + descriptor then BufferTooSmall else Success
  {
  }

  /** An entry that ends before its length does, or whose length is out of range or more than is left. */
  predicate BadEntry(b: seq<byte>, at: nat, e: Status) {
    if at + 2 > |b| then e == BufferTooSmall
    else
      var length := b[at] as int + 0x100 * b[at + 1] as int;
      (length == 0 || length > 512 || at + 2 + length > |b|) && e == InvalidParameter
  }

  /** Features are refused for the first entry that is bad, after good ones that stand whole in the buffer. */
  lemma {:induction false} FirstBadEntry(b: seq<byte>, at: nat, n: nat) returns (good: seq<Feature>)
    requires at <= |b| && ParseFeatures(b, at, n).Err?
    ensures |good| < n && (forall f :: f in good ==> IsFeature(f)) && FeatureBytes(good) <= b[at..]
    ensures BadEntry(b, at + |FeatureBytes(good)|, ParseFeatures(b, at, n).error)
    decreases n
  {
    hide *;
    if StandsWhole(b, at) {
      var f := EntryOf(b, at);
      WholeEntry(b, at, n);
      var rest := FirstBadEntry(b, at + 2 + |f.data|, n - 1);
      good := [f] + rest;
      GoodEntry(b, at, f, rest);
    } else {
      good := [];
      BadHere(b, at, n);
    }
  }

  /** An entry of a length in range ends inside the buffer. */
  predicate StandsWhole(b: seq<byte>, at: nat) {
    at + 2 <= |b| && 1 <= Le16At(b, at) <= MAX_REPORT && at + 2 + Le16At(b, at) as int <= |b|
  }

  function EntryOf(b: seq<byte>, at: nat): (f: Feature)
    requires StandsWhole(b, at)
    ensures IsFeature(f) && Le16At(b, at) == |f.data| && at + 2 + |f.data| <= |b|
    ensures b[at + 2..at + 2 + |f.data|] == f.data
  {
    Feature(b[at + 2], b[at + 2..at + 2 + Le16At(b, at) as int])
  }

  lemma WholeEntry(b: seq<byte>, at: nat, n: nat)
    requires StandsWhole(b, at) && ParseFeatures(b, at, n).Err?
    ensures n > 0 && ParseFeatures(b, at + 2 + |EntryOf(b, at).data|, n - 1) == ParseFeatures(b, at, n)
  {
  }

  lemma BadHere(b: seq<byte>, at: nat, n: nat)
    requires at <= |b| && !StandsWhole(b, at) && ParseFeatures(b, at, n).Err?
    ensures n > 0 && FeatureBytes([]) == [] && FeatureBytes([]) <= b[at..]
    ensures BadEntry(b, at, ParseFeatures(b, at, n).error)
  {
  }

  lemma GoodEntry(b: seq<byte>, at: nat, f: Feature, rest: seq<Feature>)
    requires IsFeature(f) && at + 2 + |f.data| <= |b|
    requires Le16At(b, at) == |f.data| && b[at + 2..at + 2 + |f.data|] == f.data
    requires (forall x :: x in rest ==> IsFeature(x)) && FeatureBytes(rest) <= b[at + 2 + |f.data|..]
    ensures (forall x :: x in [f] + rest ==> IsFeature(x)) && FeatureBytes([f] + rest) <= b[at..]
    ensures |FeatureBytes([f] + rest)| == 2 + |f.data| + |FeatureBytes(rest)|
  {
    var good := [f] + rest;
    assert good[1..] == rest;
    hide *;
    FirstFeature(b, at, good);
    FirstBytes(good);
    AllFeatures(f, rest);
  }

  /** What a cursor loop has read so far, in front of what it is still to read. */
  function Prepended(front: seq<Feature>, r: Result<seq<Feature>, Status>): Result<seq<Feature>, Status> {
    match r
    case Err(e) => Err(e)
    case Ok(rest) => Ok(front + rest)
  }

  lemma PrependedStep(b: seq<byte>, at: nat, n: nat, front: seq<Feature>)
    requires n > 0 && at + 2 <= |b|
    requires 1 <= Le16At(b, at) <= MAX_REPORT && at + 2 + Le16At(b, at) as int <= |b|
    ensures var end := at + 2 + Le16At(b, at) as int;
            var data := b[at + 2..end];
            Prepended(front, ParseFeatures(b, at, n))
            == Prepended(front + [Feature(data[0], data)], ParseFeatures(b, end, n - 1))
  {
    var end := at + 2 + Le16At(b, at) as int;
    var data := b[at + 2..end];
    var rest := ParseFeatures(b, end, n - 1);
    if rest.Ok? {
      assert front + ([Feature(data[0], data)] + rest.value) == front + [Feature(data[0], data)] + rest.value;
    }
  }

  /** Where a cursor loop stops: at its last entry, or at the first that is cut or of a length out of range. */
  lemma ParseStops(b: seq<byte>, at: nat, n: nat, front: seq<Feature>)
    requires at <= |b|
    ensures n == 0 ==> Prepended(front, ParseFeatures(b, at, n)) == Ok(front)
    ensures n > 0 && |b| - at < 2 ==> ParseFeatures(b, at, n) == Err(BufferTooSmall)
    ensures n > 0 && |b| - at >= 2 ==>
              var length := Le16At(b, at);
              length == 0 || length > MAX_REPORT || |b| - (at + 2) < length as int ==>
              ParseFeatures(b, at, n) == Err(InvalidParameter)
  {
    assert front + [] == front;
  }

  lemma PrependedNothing(r: Result<seq<Feature>, Status>)
    ensures Prepended([], r) == r
  {
    if r.Ok? {
      assert [] + r.value == r.value;
    }
  }

  lemma FirstFeature(b: seq<byte>, at: nat, features: seq<Feature>)
    requires features != [] && IsFeature(features[0])
    requires at + 2 + |features[0].data| <= |b|
    ensures var end := at + 2 + |features[0].data|;
            FeatureBytes(features) <= b[at..]
            <==> && Le16At(b, at) == |features[0].data|
                 && b[at + 2..end] == features[0].data
                 && FeatureBytes(features[1..]) <= b[end..]
  {
    var f := features[0];
    Le16RoundTrip(|f.data|, b, at);
    FirstBytes(features);
    hide *;
    EntryAt(b, at, Le16(|f.data|), f.data, FeatureBytes(features[1..]));
  }

  /** A length and its bytes stand at a cursor, with more behind them. */
  lemma EntryAt(b: seq<byte>, at: nat, length: seq<byte>, data: seq<byte>, more: seq<byte>)
    requires |length| == 2 && at + 2 + |data| <= |b|
    ensures var end := at + 2 + |data|;
            length + data + more <= b[at..] <==> b[at..at + 2] == length && b[at + 2..end] == data && more <= b[end..]
  {
    SlicesFrom(b, at, |data|);
    PrefixOfParts(length, data, more, b[at..]);
  }

  lemma FirstBytes(features: seq<Feature>)
    requires features != [] && IsFeature(features[0])
    ensures FeatureBytes(features) == Le16(|features[0].data|) + features[0].data + FeatureBytes(features[1..])
  {
  }

  lemma SlicesFrom(b: seq<byte>, at: nat, n: nat)
    requires at + 2 + n <= |b|
    ensures var s := b[at..];
            |s| >= 2 + n && s[..2] == b[at..at + 2] && s[2..2 + n] == b[at + 2..at + 2 + n] && s[2 + n..] == b[at + 2 + n..]
  {
  }

  /** The entry loop accepts exactly the serialised features, wherever the cursor stands. */
  lemma {:induction false} FeaturesInverse(b: seq<byte>, at: nat, features: seq<Feature>)
    requires at <= |b|
    ensures ParseFeatures(b, at, |features|) == Ok(features)
            <==> (forall f :: f in features ==> IsFeature(f)) && FeatureBytes(features) <= b[at..]
    decreases |features|
  {
    hide *;
    if features == [] {
      NothingRead(b, at);
    } else {
      var f, rest := features[0], features[1..];
      assert features == [f] + rest;
      AllFeatures(f, rest);
      if !IsFeature(f) || at + 2 + |f.data| > |b| {
        NoSuchEntry(b, at, features);
      } else {
        FirstFeature(b, at, features);
        FeaturesInverse(b, at + 2 + |f.data|, rest);
        ParseFirst(b, at, f, rest);
      }
    }
  }

  lemma NothingRead(b: seq<byte>, at: nat)
    requires at <= |b|
    ensures ParseFeatures(b, at, 0) == Ok([]) && FeatureBytes([]) == []
  {
  }

  lemma NoSuchEntry(b: seq<byte>, at: nat, features: seq<Feature>)
    requires at <= |b| && features != []
    requires !IsFeature(features[0]) || at + 2 + |features[0].data| > |b|
    ensures ParseFeatures(b, at, |features|) != Ok(features)
    ensures IsFeature(features[0]) ==> !(FeatureBytes(features) <= b[at..])
  {
    assert features[0] in features;
    if IsFeature(features[0]) {
      FirstBytes(features);
    }
  }

  lemma AllFeatures(f: Feature, rest: seq<Feature>)
    ensures (forall x :: x in [f] + rest ==> IsFeature(x)) <==> IsFeature(f) && forall x :: x in rest ==> IsFeature(x)
  {
    forall x | x in rest
      ensures x in [f] + rest
    {
    }
    assert f in [f] + rest;
  }

  lemma ParseFirst(b: seq<byte>, at: nat, f: Feature, rest: seq<Feature>)
    requires IsFeature(f) && at + 2 + |f.data| <= |b|
    ensures var end := at + 2 + |f.data|;
            ParseFeatures(b, at, 1 + |rest|) == Ok([f] + rest)
            <==> && Le16At(b, at) == |f.data|
                 && b[at + 2..end] == f.data
                 && ParseFeatures(b, end, |rest|) == Ok(rest)
  {
    var end := at + 2 + |f.data|;
    var r := ParseFeatures(b, at, 1 + |rest|);
    hide Le16At;
    if r == Ok([f] + rest) {
      assert r.value[0] == f;
      assert r.value[1..] == rest;
    }
  }

  lemma PrefixOfParts(a: seq<byte>, b: seq<byte>, c: seq<byte>, s: seq<byte>)
    requires |a| + |b| <= |s|
    ensures a + b + c <= s <==> s[..|a|] == a && s[|a|..|a| + |b|] == b && c <= s[|a| + |b|..]
  {
    var whole := a + b + c;
    var end := |a| + |b|;
    assert whole[..|a|] == a && whole[|a|..end] == b && whole[end..] == c;
    if whole <= s {
      assert s == whole + s[|whole|..];
      assert s[end..] == c + s[|whole|..];
    }
    if s[..|a|] == a && s[|a|..end] == b && c <= s[end..] {
      assert s == a + b + s[end..];
      assert s[end..] == c + s[end..][|c|..];
      assert s == whole + s[end..][|c|..];
    }
  }

  lemma SixWords(a: seq<byte>, b: seq<byte>, c: seq<byte>, d: seq<byte>, e: seq<byte>, f: seq<byte>)
    requires |a| == |b| == |c| == |d| == |e| == |f| == 2
    ensures var w := a + b + c + d + e + f;
            && |w| == 12 && w[0..2] == a && w[2..4] == b && w[4..6] == c
            && w[6..8] == d && w[8..10] == e && w[10..12] == f
  {
  }

  lemma HeaderInverse(b: seq<byte>, r: PlugRequest)
    requires |b| >= PLUG_HEADER
    ensures b[..PLUG_HEADER] == HeaderBytes(r)
            <==> HeaderOf(b) == Header(r.identity, |r.descriptor| % 0x1_0000, |r.features| % 0x1_0000, r.kind)
  {
    Le16RoundTrip(r.identity.vendor, b, 0);
    Le16RoundTrip(r.identity.product, b, 2);
    Le16RoundTrip(r.identity.version, b, 4);
    Le16RoundTrip(|r.descriptor| % 0x1_0000, b, 6);
    Le16RoundTrip(|r.features| % 0x1_0000, b, 8);
    Le16RoundTrip(r.kind, b, 10);
    var h := b[..PLUG_HEADER];
    assert h == b[0..2] + b[2..4] + b[4..6] + b[6..8] + b[8..10] + b[10..12];
    var w := HeaderBytes(r);
    hide Le16, Le16At;
    SixWords(Le16(r.identity.vendor), Le16(r.identity.product), Le16(r.identity.version),
             Le16(|r.descriptor| % 0x1_0000), Le16(|r.features| % 0x1_0000), Le16(r.kind));
    if h == w {
      assert b[0..2] == h[0..2] && b[2..4] == h[2..4] && b[4..6] == h[4..6];
      assert b[6..8] == h[6..8] && b[8..10] == h[8..10] && b[10..12] == h[10..12];
    }
  }

  /** The same for a buffer whose header announces `r`'s own lengths. */
  lemma BodyInverse(b: seq<byte>, r: PlugRequest)
    requires PLUG_HEADER + |r.descriptor| <= |b|
    ensures PlugBytes(r) <= b
            <==> && b[..PLUG_HEADER] == HeaderBytes(r)
                 && b[PLUG_HEADER..PLUG_HEADER + |r.descriptor|] == r.descriptor
                 && FeatureBytes(r.features) <= b[PLUG_HEADER + |r.descriptor|..]
  {
    var at := PLUG_HEADER + |r.descriptor|;
    PrefixOfParts(HeaderBytes(r), r.descriptor, FeatureBytes(r.features), b);
  }

  lemma AcceptedIsSerialised(b: seq<byte>, r: PlugRequest)
    requires ParsePlug(b) == Ok(r)
    ensures WithinLimits(r) && PlugBytes(r) <= b
  {
    hide HeaderBytes, FeatureBytes, Le16At, PlugBytes, ParseFeatures;
    var h := HeaderOf(b);
    assert |r.descriptor| == h.descriptorLength && |r.features| == h.featureCount;
    var at := PLUG_HEADER + |r.descriptor|;
    FeaturesInverse(b, at, r.features);
    HeaderInverse(b, r);
    BodyInverse(b, r);
  }

  lemma SerialisedIsAccepted(b: seq<byte>, r: PlugRequest)
    requires WithinLimits(r) && PlugBytes(r) <= b
    ensures ParsePlug(b) == Ok(r)
  {
    var at := PLUG_HEADER + |r.descriptor|;
    hide HeaderBytes, FeatureBytes, ParseFeatures, Le16At;
    assert |PlugBytes(r)| >= at;
    BodyInverse(b, r);
    HeaderInverse(b, r);
    FeaturesInverse(b, at, r.features);
    var h := HeaderOf(b);
    assert h.kind == r.kind && h.descriptorLength == |r.descriptor| && h.featureCount == |r.features|;
    assert CheckHeader(b) == Success;
  }

  /**
   * The parser is the exact inverse of the serialiser: it answers `r` for a buffer
   * just when `r` is within the limits and the buffer is its request and any tail.
   */
  lemma PlugParserIsInverse(b: seq<byte>, r: PlugRequest)
    ensures ParsePlug(b) == Ok(r) <==> WithinLimits(r) && PlugBytes(r) <= b
  {
    if ParsePlug(b) == Ok(r) {
      AcceptedIsSerialised(b, r);
    }
    if WithinLimits(r) && PlugBytes(r) <= b {
      SerialisedIsAccepted(b, r);
    }
  }

  /** Sent and parsed back, a request comes out as it went in just when it is within the limits. */
  lemma PlugRoundTrip(r: PlugRequest, tail: seq<byte>)
    ensures ParsePlug(PlugBytes(r) + tail) == Ok(r) <==> WithinLimits(r)
  {
    PlugParserIsInverse(PlugBytes(r) + tail, r);
  }

  /** Acceptance, without naming the answer. */
  lemma PlugAcceptance(b: seq<byte>)
    ensures ParsePlug(b).Ok? <==> exists r :: WithinLimits(r) && PlugBytes(r) <= b
  {
    if ParsePlug(b).Ok? {
      PlugParserIsInverse(b, ParsePlug(b).value);
    }
    forall r | WithinLimits(r) && PlugBytes(r) <= b
      ensures ParsePlug(b).Ok?
    {
      PlugParserIsInverse(b, r);
    }
  }

  /** Requests delimit themselves: a request cut short anywhere is refused. */
  lemma TruncatedPlugIsRefused(r: PlugRequest, cut: nat)
    requires WithinLimits(r)
    requires cut < |PlugBytes(r)|
    ensures ParsePlug(PlugBytes(r)[..cut]).Err?
  {
    var whole := PlugBytes(r);
    var b := whole[..cut];
    if ParsePlug(b).Ok? {
      var other := ParsePlug(b).value;
      PlugParserIsInverse(b, other);
      assert PlugBytes(other) <= whole;
      PlugParserIsInverse(whole, other);
      PlugParserIsInverse(whole, r);
      assert false;
    }
  }

  // ---------------------------------------------------------------------------
  // The macOS driver's plug parser: no kind word, one error for everything
  // ---------------------------------------------------------------------------

  function MacParsePlug(b: seq<byte>): Option<PlugRequest> {
    if |b| < PLUG_HEADER then None
    else
      var h := HeaderOf(b);
      if h.descriptorLength == 0 || h.descriptorLength > MAX_DESCRIPTOR then None
      else if h.featureCount > MAX_FEATURES then None
      else if |b| - PLUG_HEADER < h.descriptorLength as int then None
      else
        var at := PLUG_HEADER + h.descriptorLength as int;
        match ParseFeatures(b, at, h.featureCount)
        case Err(_) => None
        case Ok(features) => Some(PlugRequest(KIND_HID, h.identity, b[PLUG_HEADER..at], features))
  }

  /** Both drivers read the same request out of the bytes of a HID plug; macOS folds repeated ids only later. */
  lemma DriversAgreeOnHidPlugs(r: PlugRequest, tail: seq<byte>)
    requires WithinLimits(r) && r.kind == KIND_HID
    ensures MacParsePlug(PlugBytes(r) + tail) == Some(r)
    ensures ParsePlug(PlugBytes(r) + tail) == Ok(r)
  {
    PlugRoundTrip(r, tail);
  }

  /** Where they differ: macOS takes an Xbox plug's word for reserved and refuses the empty descriptor. */
  lemma MacRefusesXusbPlugs(r: PlugRequest, tail: seq<byte>)
    requires WithinLimits(r) && r.kind == KIND_XUSB
    ensures MacParsePlug(PlugBytes(r) + tail).None?
    ensures ParsePlug(PlugBytes(r) + tail) == Ok(r)
  {
    PlugRoundTrip(r, tail);
  }

  // ---------------------------------------------------------------------------
  // Report submissions
  // ---------------------------------------------------------------------------

  predicate ReportFits(report: seq<byte>) {
    1 <= |report| <= 512
  }

  function ReportBytes(slot: u32, report: seq<byte>): seq<byte> {
    Le32(slot) + Le16(|report| % 0x1_0000) + Le16(0) + report
  }

  method ReportRequest(slot: u32, report: seq<byte>) returns (bytes: seq<byte>)
    ensures bytes == ReportBytes(slot, report)
    ensures ReadReportIn(bytes) == Ok(ReportIn(slot, report)) <==> ReportFits(report)
  {
    ReportRoundTrip(slot, report, []);
    assert ReportBytes(slot, report) + [] == ReportBytes(slot, report);
    bytes := Le32(slot) + Le16(|report| % 0x1_0000) + Le16(0);
    bytes := bytes + report;
  }

  datatype ReportIn = ReportIn(slot: u32, report: seq<byte>)

  function ReadReportIn(b: seq<byte>): (r: Result<ReportIn, Status>)
    ensures r.Ok? ==> ReportFits(r.value.report)
  {
    if |b| < REPORT_HEADER then Err(BufferTooSmall)
    else
      var length := Le16At(b, 4);
      if length == 0 || length > MAX_REPORT || |b| < REPORT_HEADER + length as int then Err(InvalidParameter)
      else Ok(ReportIn(Le32At(b, 0), b[REPORT_HEADER..REPORT_HEADER + length as int]))
  }

  /** A report reaches the slot it names unchanged just when the client's own size check passes. */
  lemma ReportRoundTrip(slot: u32, report: seq<byte>, tail: seq<byte>)
    ensures ReadReportIn(ReportBytes(slot, report) + tail) == Ok(ReportIn(slot, report)) <==> ReportFits(report)
  {
    var b := ReportBytes(slot, report) + tail;
    assert b[0..4] == Le32(slot) && b[4..6] == Le16(|report| % 0x1_0000);
    Le32RoundTrip(slot, b, 0);
    Le16RoundTrip(|report| % 0x1_0000, b, 4);
    assert b[REPORT_HEADER..REPORT_HEADER + |report|] == report;
  }

  /** The layout of a submission: slot, length, two reserved bytes, report. */
  lemma ReportLayout(slot: u32, report: seq<byte>)
    ensures ReportBytes(slot, report)
            == [slot % 0x100, slot / 0x100 % 0x100, slot / 0x1_0000 % 0x100, slot / 0x100_0000]
               + [|report| % 0x100, |report| / 0x100 % 0x100] + [0, 0] + report
  {
    WordBytes(|report|);
    WordBytes(0);
    LongBytes(slot);
    hide Le32, Le16;
  }

  lemma WordBytes(n: nat)
    ensures Le16(n % 0x1_0000) == [n % 0x100, n / 0x100 % 0x100]
  {
    var low, high := n % 0x1_0000, n / 0x1_0000;
    assert n == low + 0x1_0000 * high;
    assert low / 0x100 < 0x100;
    assert n / 0x100 == low / 0x100 + 0x100 * high;
  }

  lemma LongBytes(n: u32)
    ensures Le32(n) == [n % 0x100, n / 0x100 % 0x100, n / 0x1_0000 % 0x100, n / 0x100_0000]
  {
    WordBytes(n);
    WordBytes(n / 0x1_0000);
    hide Le16;
    assert n / 0x1_0000 / 0x100 == n / 0x100_0000;
  }

  /** Why a driver refuses a submission: too short a header, or a length it does not take. */
  lemma ReportRefusals(b: seq<byte>)
    ensures |b| < 8 ==> ReadReportIn(b) == Err(BufferTooSmall)
    ensures |b| >= 8 ==>
              var length := b[4] as int + 0x100 * b[5] as int;
              if length == 0 || length > 512 || |b| < 8 + length then ReadReportIn(b) == Err(InvalidParameter)
              else ReadReportIn(b).Ok? && ReadReportIn(b).value.report == b[8..8 + length]
  {
    hide Le32At;
  }

  // ---------------------------------------------------------------------------
  // Output completions
  // ---------------------------------------------------------------------------

  datatype Report = Report(kind: byte, data: seq<byte>)

  function OutputBytes(r: Report): seq<byte> {
    [r.kind, 0] + Le16(|r.data| % 0x1_0000) + r.data
  }

  function ParseOutput(b: seq<byte>): Option<Report> {
    if |b| < OUTPUT_HEADER then None
    else
      var length := Le16At(b, 2);
      if |b| < OUTPUT_HEADER + length as int then None
      else Some(Report(b[0], b[OUTPUT_HEADER..OUTPUT_HEADER + length as int]))
  }

  /** What a driver completes a wait with, the client reads back exactly. */
  lemma OutputRoundTrip(r: Report, tail: seq<byte>)
    ensures ParseOutput(OutputBytes(r) + tail) == Some(r) <==> |r.data| < 0x1_0000
  {
    var b := OutputBytes(r) + tail;
    assert b[2..4] == Le16(|r.data| % 0x1_0000);
    Le16RoundTrip(|r.data| % 0x1_0000, b, 2);
    assert b[OUTPUT_HEADER..OUTPUT_HEADER + |r.data|] == r.data;
  }
}
