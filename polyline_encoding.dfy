/** The encoder side of Google's Encoded Polyline Algorithm Format, as the
    decoder's documentation describes it, and the round trip that the
    decoder of internal/services/polyline.go completes. */
module PolylineEncoding {
  import opened Common
  import opened Polyline
  import DomainTypes

  /** Zig-zag encoding: `v << 1` for a non-negative value, `~(v << 1)` for a
      negative one. */
  function ZigZagEncode(v: int): (r: nat)
    ensures r % 2 == 0 <==> v >= 0
  {
    if v < 0 then -2 * v - 1 else 2 * v
  }

  /** The 5-bit groups of `m`, least significant first; every group but the
      last carries the continuation bit 0x20; each byte is offset by 63. */
  function EncodeMagnitude(m: nat): (r: seq<uint8>)
    ensures |r| >= 1
    decreases m
  {
    if m < 32 then [(m + 63) as uint8]
    else [((m % 32) + 0x20 + 63) as uint8] + EncodeMagnitude(m / 32)
  }

  function EncodeValue(v: int): seq<uint8>
  {
    EncodeMagnitude(ZigZagEncode(v))
  }

  /** Each point is written as the differences of its latitude and its
      longitude from the previous point's (from 0, 0 for the first). */
  function EncodeFrom(pts: seq<Fixed>, lat: int, lng: int): seq<uint8>
  {
    if |pts| == 0 then []
    else EncodeValue(pts[0].lat - lat) + EncodeValue(pts[0].lng - lng) + EncodeFrom(pts[1..], pts[0].lat, pts[0].lng)
  }

  function Encode(pts: seq<Fixed>): seq<uint8>
  {
    EncodeFrom(pts, 0, 0)
  }

  lemma ZigZagRoundTrip(v: int)
    ensures ZigZag(ZigZagEncode(v)) == v
  {
  }

  /** Reading an encoded magnitude wherever it sits returns the magnitude
      and the index just past it. */
  lemma {:induction false} ReadRunEncoded(s: seq<uint8>, i: nat, m: nat)
    requires i + |EncodeMagnitude(m)| <= |s|
    requires s[i..i + |EncodeMagnitude(m)|] == EncodeMagnitude(m)
    ensures ReadRun(s, i) == Some((m, i + |EncodeMagnitude(m)|))
    decreases m
  {
    var enc := EncodeMagnitude(m);
    assert s[i] == enc[0];
    if m >= 32 {
      var tail := EncodeMagnitude(m / 32);
      assert enc == [enc[0]] + tail;
      assert s[i + 1..i + 1 + |tail|] == tail by {
        assert s[i + 1..i + 1 + |tail|] == s[i..i + |enc|][1..];
      }
      ReadRunEncoded(s, i + 1, m / 32);
      assert Payload(s[i]) == m % 32;
    }
  }

  lemma DeltaAtEncoded(s: seq<uint8>, i: nat, v: int)
    requires i + |EncodeValue(v)| <= |s|
    requires s[i..i + |EncodeValue(v)|] == EncodeValue(v)
    ensures DeltaAt(s, i) == Some((v, i + |EncodeValue(v)|))
  {
    ReadRunEncoded(s, i, ZigZagEncode(v));
  }

  lemma SplitSuffix(s: seq<uint8>, i: nat, x: seq<uint8>, y: seq<uint8>)
    requires i <= |s|
    requires s[i..] == x + y
    ensures i + |x| <= |s|
    ensures s[i..i + |x|] == x
    ensures s[i + |x|..] == y
  {
    assert s[i..i + |x|] == s[i..][..|x|];
    assert s[i + |x|..] == s[i..][|x|..];
  }

  /** A point's two encoded deltas read back as that pair. */
  lemma ReadPairEncoded(s: seq<uint8>, i: nat, dLat: int, dLng: int, rest: seq<uint8>)
    requires i <= |s|
    requires s[i..] == EncodeValue(dLat) + EncodeValue(dLng) + rest
    ensures ReadPair(s, i) == Ok((dLat, dLng, i + |EncodeValue(dLat)| + |EncodeValue(dLng)|))
    ensures s[i + |EncodeValue(dLat)| + |EncodeValue(dLng)|..] == rest
  {
    var a, b := EncodeValue(dLat), EncodeValue(dLng);
    assert s[i..] == a + (b + rest);
    SplitSuffix(s, i, a, b + rest);
    DeltaAtEncoded(s, i, dLat);
    SplitSuffix(s, i + |a|, b, rest);
    DeltaAtEncoded(s, i + |a|, dLng);
  }

  /** Decoding the encoding of a list of points, from the same starting
      accumulators, gives back exactly those points. */
  lemma {:induction false} DecodeEncodeFrom(s: seq<uint8>, i: nat, pts: seq<Fixed>, lat: int, lng: int)
    requires i <= |s|
    requires s[i..] == EncodeFrom(pts, lat, lng)
    ensures DecodeFrom(s, i, lat, lng) == Ok(pts)
    decreases |pts|
  {
    if |pts| == 0 {
      assert |s[i..]| == 0;
    } else {
      var p := pts[0];
      var dLat, dLng := p.lat - lat, p.lng - lng;
      var rest := EncodeFrom(pts[1..], p.lat, p.lng);
      var j := i + |EncodeValue(dLat)| + |EncodeValue(dLng)|;
      assert ReadPair(s, i) == Ok((dLat, dLng, j)) && s[j..] == rest by {
        ReadPairEncoded(s, i, dLat, dLng, rest);
      }
      DecodeStep(s, i, lat, lng, p, j);
      DecodeEncodeFrom(s, j, pts[1..], p.lat, p.lng);
      assert [p] + pts[1..] == pts;
    }
  }

  /** The round trip the decoder's documentation implies. */
  lemma DecodeEncode(pts: seq<Fixed>)
    ensures DecodeFrom(Encode(pts), 0, 0, 0) == Ok(pts)
  {
    var s := Encode(pts);
    assert s[0..] == s;
    DecodeEncodeFrom(s, 0, pts, 0, 0);
  }

  // ---------------------------------------------------------------------
  // The worked example of the format's documentation: the text
  // "_p~iF~ps|U_ulLnnqC_mqNvxq`@" at precision 5.

  // The encoding of each coordinate difference of the documented example
  // (38.5, -120.2), (40.7, -120.95), (43.252, -126.453) at precision 5: the
  // first point itself, then the differences between consecutive points.
  // The value is a parameter so that callers reason about it without
  // unfolding the encoder.
  lemma ExampleLat0(v: int) requires v == 3850000 ensures EncodeValue(v) == [95, 112, 126, 105, 70] {}
  lemma ExampleLng0(v: int) requires v == -12020000 ensures EncodeValue(v) == [126, 112, 115, 124, 85] {}
  lemma ExampleLat1(v: int) requires v == 220000 ensures EncodeValue(v) == [95, 117, 108, 76] {}
  lemma ExampleLng1(v: int) requires v == -75000 ensures EncodeValue(v) == [110, 110, 113, 67] {}
  lemma ExampleLat2(v: int) requires v == 255200 ensures EncodeValue(v) == [95, 109, 113, 78] {}
  lemma ExampleLng2(v: int) requires v == -550300 ensures EncodeValue(v) == [118, 120, 113, 96, 64] {}

  /** One point of the encoder: the two differences, then the rest. */
  lemma EncodeFromCons(p: Fixed, rest: seq<Fixed>, lat: int, lng: int)
    ensures EncodeFrom([p] + rest, lat, lng) == EncodeValue(p.lat - lat) + EncodeValue(p.lng - lng) + EncodeFrom(rest, p.lat, p.lng)
  {
    assert ([p] + rest)[1..] == rest;
  }

  /** The documented example text, as bytes: one run per coordinate
      difference, "_p~iF" "~ps|U" "_ulL" "nnqC" "_mqN" "vxq`@". */
  const ExampleText: seq<uint8> :=
    [95, 112, 126, 105, 70] + [126, 112, 115, 124, 85] + [95, 117, 108, 76] + [110, 110, 113, 67]
    + [95, 109, 113, 78] + [118, 120, 113, 96, 64]

  lemma EncodedExample(p0: Fixed, p1: Fixed, p2: Fixed)
    requires p0 == Fixed(3850000, -12020000) && p1 == Fixed(4070000, -12095000) && p2 == Fixed(4325200, -12645300)
    ensures Encode([p0, p1, p2]) == ExampleText
  {
    var c := EncodeFrom([p2], p1.lat, p1.lng);
    assert c == [95, 109, 113, 78] + [118, 120, 113, 96, 64] by {
      EncodeFromCons(p2, [], p1.lat, p1.lng);
      assert [p2] + [] == [p2];
      ExampleLat2(p2.lat - p1.lat);
      ExampleLng2(p2.lng - p1.lng);
    }
    var b := EncodeFrom([p1, p2], p0.lat, p0.lng);
    assert b == [95, 117, 108, 76] + [110, 110, 113, 67] + c by {
      EncodeFromCons(p1, [p2], p0.lat, p0.lng);
      assert [p1] + [p2] == [p1, p2];
      ExampleLat1(p1.lat - p0.lat);
      ExampleLng1(p1.lng - p0.lng);
    }
    assert Encode([p0, p1, p2]) == [95, 112, 126, 105, 70] + [126, 112, 115, 124, 85] + b by {
      EncodeFromCons(p0, [p1, p2], 0, 0);
      assert [p0] + [p1, p2] == [p0, p1, p2];
      ExampleLat0(p0.lat - 0);
      ExampleLng0(p0.lng - 0);
    }
  }

  lemma ExampleFixed()
    ensures DecodeFrom(ExampleText, 0, 0, 0) == Ok([Fixed(3850000, -12020000), Fixed(4070000, -12095000), Fixed(4325200, -12645300)])
  {
    var pts := [Fixed(3850000, -12020000), Fixed(4070000, -12095000), Fixed(4325200, -12645300)];
    EncodedExample(pts[0], pts[1], pts[2]);
    DecodeEncode(pts);
  }

  lemma ExampleDegrees(fs: seq<Fixed>)
    requires fs == [Fixed(3850000, -12020000), Fixed(4070000, -12095000), Fixed(4325200, -12645300)]
    ensures ToDegreesAll(fs, 5)
         == [DomainTypes.Point(38.5, -120.2), DomainTypes.Point(40.7, -120.95), DomainTypes.Point(43.252, -126.453)]
  {
    assert Pow10(5) == 100000;
    var pts := ToDegreesAll(fs, 5);
    assert pts[0] == DomainTypes.Point(38.5, -120.2);
    assert pts[1] == DomainTypes.Point(40.7, -120.95);
    assert pts[2] == DomainTypes.Point(43.252, -126.453);
  }

  /** The documented example decodes to (38.5, -120.2), (40.7, -120.95),
      (43.252, -126.453). */
  lemma CanonicalExample(text: seq<uint8>)
    requires text == ExampleText
    ensures Decode(text, 5)
         == Ok([DomainTypes.Point(38.5, -120.2), DomainTypes.Point(40.7, -120.95), DomainTypes.Point(43.252, -126.453)])
  {
    ExampleFixed();
    ExampleDegrees([Fixed(3850000, -12020000), Fixed(4070000, -12095000), Fixed(4325200, -12645300)]);
  }

  /** Decoding accepts non-canonical runs, so re-encoding a decoded text
      need not give the text back: "_??" (a zero latitude spelled with a
      redundant continuation byte, then a zero longitude) decodes to the
      single point (0, 0), whose encoding is "??". */
  lemma ReencodingIsNotIdentity(text: seq<uint8>)
    requires text == [95, 63, 63]
    ensures DecodeFrom(text, 0, 0, 0) == Ok([Fixed(0, 0)])
    ensures Encode([Fixed(0, 0)]) == [63, 63] != text
  {
    assert ReadRun(text, 2) == Some((0, 3));
    assert ReadRun(text, 1) == Some((0, 2));
    assert ReadRun(text, 0) == Some((0, 2));
    assert ReadPair(text, 0) == Ok((0, 0, 3));
    DecodeStep(text, 0, 0, 0, Fixed(0, 0), 3);
    assert [Fixed(0, 0)] + [] == [Fixed(0, 0)];
    assert [Fixed(0, 0)][1..] == [];
  }
}
