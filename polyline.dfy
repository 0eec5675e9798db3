/** Decoding of Google's Encoded Polyline Algorithm Format
    (internal/services/polyline.go).

    Each byte minus 63 carries a 5-bit payload; a value of 0x20 or more means
    another byte of the same value follows. Payloads are assembled
    little-endian into a magnitude, which is zig-zag decoded into a signed
    delta; deltas alternate latitude, longitude and are added to two running
    integer accumulators. The functions below are the specification; the
    methods `ReadDelta` and `DecodePolyline` are the source's loops, proved
    against them. */
module Polyline {
  import opened Common
  import opened DomainTypes

  /** The fixed-point coordinate held by the two integer accumulators. */
  datatype Fixed = Fixed(lat: int, lng: int)

  /** The input ended inside the latitude or the longitude of a point
      (Go: `io.ErrUnexpectedEOF` wrapped with the field's name). */
  datatype DecodeError = LatitudeTruncated | LongitudeTruncated

  const DefaultPrecision: nat := 6

  /** `b & 0x1f` with `b = c - 63`: for a negative `b` the two's-complement
      AND equals the Euclidean remainder. */
  function Payload(c: uint8): nat
  {
    (c as int - 63) % 32
  }

  /** `b >= 0x20`: another byte of the same value follows. */
  predicate Continues(c: uint8)
  {
    c as int - 63 >= 0x20
  }

  function Pow2(k: nat): (r: nat)
    ensures r >= 1
  {
    if k == 0 then 1 else 2 * Pow2(k - 1)
  }

  function Pow10(k: nat): (r: nat)
    ensures r >= 1
  {
    if k == 0 then 1 else 10 * Pow10(k - 1)
  }

  /** The variable-length run starting at index `i` of `s`: its
      little-endian magnitude and the index just past its last byte, or
      `None` when the input ends before a byte without the continuation bit. */
  function ReadRun(s: seq<uint8>, i: nat): (r: Option<(nat, nat)>)
    requires i <= |s|
    ensures r.Some? ==> i < r.value.1 <= |s|
    decreases |s| - i
  {
    if i == |s| then None
    else if !Continues(s[i]) then Some((Payload(s[i]), i + 1))
    else
      match ReadRun(s, i + 1)
      case None => None
      case Some((m, e)) => Some((Payload(s[i]) + 32 * m, e))
  }

  /** Zig-zag decoding: `^(r >> 1)` for an odd `r`, `r >> 1` for an even one.
      It is the inverse of the encoder's `v < 0 ? ~(v << 1) : v << 1`. */
  function ZigZag(r: nat): (v: int)
    ensures v >= 0 <==> r % 2 == 0
    ensures v >= 0 ==> r == 2 * v
    ensures v < 0 ==> r == -2 * v - 1
  {
    if r % 2 != 0 then -(r / 2) - 1 else r / 2
  }

  /** One signed delta starting at index `i`, and the index just past it. */
  function DeltaAt(s: seq<uint8>, i: nat): (r: Option<(int, nat)>)
    requires i <= |s|
    ensures r.Some? ==> i < r.value.1 <= |s|
  {
    match ReadRun(s, i)
    case None => None
    case Some((m, e)) => Some((ZigZag(m), e))
  }

  /** The latitude delta and the longitude delta of the point starting at
      index `i`, and the index just past both. */
  function ReadPair(s: seq<uint8>, i: nat): (r: Result<(int, int, nat), DecodeError>)
    requires i <= |s|
    ensures r.Ok? ==> i < r.value.2 <= |s|
  {
    match DeltaAt(s, i)
    case None => Err(LatitudeTruncated)
    case Some((dLat, j)) =>
      match DeltaAt(s, j)
      case None => Err(LongitudeTruncated)
      case Some((dLng, k)) => Ok((dLat, dLng, k))
  }

  /** The list `prefix` glued in front of a decoding result; an error
      discards the prefix. */
  function Prepend(prefix: seq<Fixed>, rest: Result<seq<Fixed>, DecodeError>): Result<seq<Fixed>, DecodeError>
  {
    match rest
    case Err(e) => Err(e)
    case Ok(fs) => Ok(prefix + fs)
  }

  /** The points encoded from index `i` of `s` on, when the accumulators
      hold `lat`, `lng`: one point per latitude/longitude pair of deltas,
      until the input is exhausted; an input that ends inside either value
      is rejected whole. */
  function DecodeFrom(s: seq<uint8>, i: nat, lat: int, lng: int): Result<seq<Fixed>, DecodeError>
    requires i <= |s|
    decreases |s| - i
  {
    if i == |s| then Ok([])
    else
      match ReadPair(s, i)
      case Err(e) => Err(e)
      case Ok((dLat, dLng, j)) =>
        Prepend([Fixed(lat + dLat, lng + dLng)], DecodeFrom(s, j, lat + dLat, lng + dLng))
  }

  /** A fixed-point coordinate in degrees, `value / 10^precision`. */
  function ToDegrees(f: Fixed, precision: nat): Point
  {
    Point(f.lat as real / Pow10(precision) as real, f.lng as real / Pow10(precision) as real)
  }

  function ToDegreesAll(fs: seq<Fixed>, precision: nat): seq<Point>
  {
    seq(|fs|, k requires 0 <= k < |fs| => ToDegrees(fs[k], precision))
  }

  /** What `DecodePolyline(encoded, precision)` returns. */
  function Decode(encoded: seq<uint8>, precision: int): Result<seq<Point>, DecodeError>
  {
    var p: nat := if precision <= 0 then DefaultPrecision else precision;
    match DecodeFrom(encoded, 0, 0, 0)
    case Err(e) => Err(e)
    case Ok(fs) => Ok(ToDegreesAll(fs, p))
  }

  /** The value `ReadRun` reaches from a later index, once the payloads
      before it assembled `acc` and the next payload is worth `scale`. */
  function Resume(rest: Option<(nat, nat)>, acc: nat, scale: nat): Option<(nat, nat)>
  {
    match rest
    case None => None
    case Some((m, e)) => Some((acc + scale * m, e))
  }

  lemma Pow2Plus5(k: nat)
    ensures Pow2(k + 5) == 32 * Pow2(k)
  {
    assert Pow2(k + 5) == 2 * Pow2(k + 4) == 4 * Pow2(k + 3) == 8 * Pow2(k + 2) == 16 * Pow2(k + 1);
  }

  /** Resuming one byte earlier with that byte's payload folded in. */
  lemma ResumeShift(acc: nat, scale: nat, payload: nat, m: nat, e: nat)
    ensures Resume(Some((payload + 32 * m, e)), acc, scale) == Resume(Some((m, e)), acc + scale * payload, 32 * scale)
  {
    assert scale * (payload + 32 * m) == scale * payload + scale * (32 * m);
    assert scale * (32 * m) == (32 * scale) * m;
  }

  /** `x << shift` on a non-negative value. */
  function Shl(x: nat, shift: nat): (r: nat)
  {
    Pow2(shift) * x
  }

  /** The fresh payload fits below the next scale, so `|=` adds. */
  lemma PayloadFits(acc: nat, scale: nat, payload: nat)
    requires acc < scale && payload < 32
    ensures acc + scale * payload < 32 * scale
  {
    assert scale * payload <= scale * 31;
  }

  /** One iteration of `readDelta`'s loop, on the specification side. */
  lemma AdvanceRun(s: seq<uint8>, idx: nat, next: nat, acc: nat, shift: nat)
    requires idx <= next < |s|
    requires acc < Pow2(shift)
    requires ReadRun(s, idx) == Resume(ReadRun(s, next), acc, Pow2(shift))
    ensures acc + Shl(Payload(s[next]), shift) < Pow2(shift + 5)
    ensures ReadRun(s, idx) ==
            if Continues(s[next])
            then Resume(ReadRun(s, next + 1), acc + Shl(Payload(s[next]), shift), Pow2(shift + 5))
            else Some((acc + Shl(Payload(s[next]), shift), next + 1))
  {
    Pow2Plus5(shift);
    PayloadFits(acc, Pow2(shift), Payload(s[next]));
    if Continues(s[next]) {
      var rest := ReadRun(s, next + 1);
      if rest.Some? {
        var (m, e) := rest.value;
        assert ReadRun(s, next) == Some((Payload(s[next]) + 32 * m, e));
        ResumeShift(acc, Pow2(shift), Payload(s[next]), m, e);
      }
    }
  }

  /** `readDelta`: reads one value starting at `idx` and returns the index
      just past the bytes it consumed. On a truncated run it fails with the
      index left at the end of the input. */
  method ReadDelta(s: seq<uint8>, idx: nat) returns (delta: Option<int>, next: nat)
    requires idx <= |s|
    ensures delta.Some? <==> DeltaAt(s, idx).Some?
    ensures delta.Some? ==> idx < next <= |s| && DeltaAt(s, idx) == Some((delta.value, next))
    ensures delta.None? ==> next == |s|
  {
    var result: nat, shift: nat := 0, 0;
    next := idx;
    while true
      invariant idx <= next <= |s|
      invariant result < Pow2(shift)
      invariant ReadRun(s, idx) == Resume(ReadRun(s, next), result, Pow2(shift))
      decreases |s| - next
    {
      if next >= |s| {
        return None, next;
      }
      var b := s[next] as int - 63;
      AdvanceRun(s, idx, next, result, shift);
      next := next + 1;
      result := result + Shl(b % 32, shift);
      shift := shift + 5;
      if b < 0x20 {
        break;
      }
    }
    if result % 2 != 0 {
      delta := Some(-(result / 2) - 1);
    } else {
      delta := Some(result / 2);
    }
  }

  lemma PrependPrepend(a: seq<Fixed>, b: seq<Fixed>, rest: Result<seq<Fixed>, DecodeError>)
    ensures Prepend(a, Prepend(b, rest)) == Prepend(a + b, rest)
  {
    match rest
    case Err(_) =>
    case Ok(fs) => assert a + (b + fs) == (a + b) + fs;
  }

  /** One iteration of the decoding loop: the pair read at `i` moves from
      the remaining decoding to the points already produced. */
  lemma DecodeAdvance(s: seq<uint8>, i: nat, lat: int, lng: int, fixed: seq<Fixed>,
                      dLat: int, j: nat, dLng: int, k: nat)
    requires i < |s| && j <= |s|
    requires DeltaAt(s, i) == Some((dLat, j)) && DeltaAt(s, j) == Some((dLng, k))
    ensures k <= |s|
    ensures Prepend(fixed, DecodeFrom(s, i, lat, lng))
         == Prepend(fixed + [Fixed(lat + dLat, lng + dLng)], DecodeFrom(s, k, lat + dLat, lng + dLng))
  {
    assert ReadPair(s, i) == Ok((dLat, dLng, k));
    PrependPrepend(fixed, [Fixed(lat + dLat, lng + dLng)], DecodeFrom(s, k, lat + dLat, lng + dLng));
  }

  lemma ToDegreesAllAppend(fs: seq<Fixed>, f: Fixed, p: nat)
    ensures ToDegreesAll(fs + [f], p) == ToDegreesAll(fs, p) + [ToDegrees(f, p)]
  {
  }

  /** `DecodePolyline`: a precision of zero or less means 6 digits; the
      empty string gives no points; a truncated input gives an error and no
      points; otherwise point k is the k-th pair of accumulator values scaled
      by 10^-precision. */
  method DecodePolyline(encoded: seq<uint8>, precision: int) returns (r: Result<seq<Point>, DecodeError>)
    ensures r == Decode(encoded, precision)
    ensures encoded == [] ==> r == Ok([])
    ensures r.Ok? ==>
              && DecodeFrom(encoded, 0, 0, 0).Ok?
              && r.value == ToDegreesAll(DecodeFrom(encoded, 0, 0, 0).value, if precision <= 0 then 6 else precision)
  {
    var p: nat;
    if precision <= 0 {
      p := 6;
    } else {
      p := precision;
    }
    var idx := 0;
    var lat, lng := 0, 0;
    var coords: seq<Point> := [];
    ghost var fixed: seq<Fixed> := [];
    ghost var whole := DecodeFrom(encoded, 0, 0, 0);
    assert Prepend([], whole) == whole by {
      match whole
      case Err(_) =>
      case Ok(fs) => assert [] + fs == fs;
    }
    while idx < |encoded|
      invariant 0 <= idx <= |encoded|
      invariant coords == ToDegreesAll(fixed, p)
      invariant whole == Prepend(fixed, DecodeFrom(encoded, idx, lat, lng))
      decreases |encoded| - idx
    {
      var dLat, idxLat := ReadDelta(encoded, idx);
      if dLat.None? {
        return Err(LatitudeTruncated);
      }
      var dLng, idxLng := ReadDelta(encoded, idxLat);
      if dLng.None? {
        return Err(LongitudeTruncated);
      }
      DecodeAdvance(encoded, idx, lat, lng, fixed, dLat.value, idxLat, dLng.value, idxLng);
      ToDegreesAllAppend(fixed, Fixed(lat + dLat.value, lng + dLng.value), p);
      lat := lat + dLat.value;
      lng := lng + dLng.value;
      coords := coords + [ToDegrees(Fixed(lat, lng), p)];
      fixed := fixed + [Fixed(lat, lng)];
      idx := idxLng;
    }
    assert fixed + [] == fixed;
    return Ok(coords);
  }

  // ---------------------------------------------------------------------
  // Properties of the specification

  /** A run ends exactly at the first byte without the continuation bit;
      it is missing exactly when every remaining byte continues. */
  lemma {:induction false} ReadRunStops(s: seq<uint8>, i: nat)
    requires i <= |s|
    ensures ReadRun(s, i).None? <==> forall j :: i <= j < |s| ==> Continues(s[j])
    ensures ReadRun(s, i).Some? ==>
              && !Continues(s[ReadRun(s, i).value.1 - 1])
              && forall j :: i <= j < ReadRun(s, i).value.1 - 1 ==> Continues(s[j])
    decreases |s| - i
  {
    if i < |s| && Continues(s[i]) {
      ReadRunStops(s, i + 1);
    }
  }

  /** The magnitude of the bytes `s[i..e]` as a sum of positional terms:
      the payload of the j-th byte of the run weighs 32^j. */
  function RunValue(s: seq<uint8>, i: nat, e: nat): nat
    requires i <= e <= |s|
    decreases e - i
  {
    if e == i then 0 else RunValue(s, i, e - 1) + Payload(s[e - 1]) * Pow2(5 * (e - 1 - i))
  }

  /** Peeling the first term off the positional sum. */
  lemma {:induction false} RunValueFront(s: seq<uint8>, i: nat, e: nat)
    requires i < e <= |s|
    ensures RunValue(s, i, e) == Payload(s[i]) + 32 * RunValue(s, i + 1, e)
    decreases e - i
  {
    if e == i + 1 {
      assert RunValue(s, i, e) == RunValue(s, i, i) + Payload(s[i]) * Pow2(0);
    } else {
      RunValueFront(s, i, e - 1);
      Pow2Plus5(5 * (e - 1 - (i + 1)));
      var t := Payload(s[e - 1]);
      var w := Pow2(5 * (e - 1 - (i + 1)));
      assert Pow2(5 * (e - 1 - i)) == 32 * w;
      assert t * (32 * w) == 32 * (t * w);
    }
  }

  /** The assembled magnitude is the sum of each payload times 32^j for the
      j-th byte of the run. */
  lemma {:induction false} ReadRunMagnitude(s: seq<uint8>, i: nat)
    requires i <= |s|
    requires ReadRun(s, i).Some?
    ensures ReadRun(s, i).value.0 == RunValue(s, i, ReadRun(s, i).value.1)
    decreases |s| - i
  {
    var (m, e) := ReadRun(s, i).value;
    RunValueFront(s, i, e);
    if Continues(s[i]) {
      ReadRunMagnitude(s, i + 1);
    } else {
      assert RunValue(s, i + 1, i + 1) == 0;
    }
  }

  /** A value whose last byte still carries the continuation bit makes the
      whole decoding fail, wherever it sits in the input. */
  lemma {:induction false} TruncatedInputRejected(s: seq<uint8>, i: nat, lat: int, lng: int)
    requires i < |s|
    requires Continues(s[|s| - 1])
    ensures DecodeFrom(s, i, lat, lng).Err?
    decreases |s| - i
  {
    ReadRunStops(s, i);
    match ReadPair(s, i)
    case Err(_) =>
    case Ok((dLat, dLng, j)) =>
      var (_, k) := DeltaAt(s, i).value;
      ReadRunStops(s, k);
      TruncatedInputRejected(s, j, lat + dLat, lng + dLng);
  }

  /** An input that ends right after a latitude is a latitude without its
      longitude. */
  lemma LatitudeWithoutLongitude(s: seq<uint8>, i: nat, lat: int, lng: int)
    requires i <= |s|
    requires DeltaAt(s, i).Some? && DeltaAt(s, i).value.1 == |s|
    ensures DecodeFrom(s, i, lat, lng) == Err(LongitudeTruncated)
  {
  }

  /** The (latitude, longitude) deltas of every point, in order. */
  function Deltas(s: seq<uint8>, i: nat): (r: Result<seq<Fixed>, DecodeError>)
    requires i <= |s|
    decreases |s| - i
  {
    if i == |s| then Ok([])
    else
      match ReadPair(s, i)
      case Err(e) => Err(e)
      case Ok((dLat, dLng, j)) => Prepend([Fixed(dLat, dLng)], Deltas(s, j))
  }

  function SumLat(ds: seq<Fixed>): int
  {
    if |ds| == 0 then 0 else ds[0].lat + SumLat(ds[1..])
  }

  function SumLng(ds: seq<Fixed>): int
  {
    if |ds| == 0 then 0 else ds[0].lng + SumLng(ds[1..])
  }

  /** Point k is the starting accumulator plus the sums of the first k + 1
      deltas. */
  function Running(ds: seq<Fixed>, lat: int, lng: int): seq<Fixed>
  {
    seq(|ds|, k requires 0 <= k < |ds| => Fixed(lat + SumLat(ds[..k + 1]), lng + SumLng(ds[..k + 1])))
  }

  lemma RunningCons(d: Fixed, ds: seq<Fixed>, lat: int, lng: int)
    ensures Running([d] + ds, lat, lng) == [Fixed(lat + d.lat, lng + d.lng)] + Running(ds, lat + d.lat, lng + d.lng)
  {
    var l := Running([d] + ds, lat, lng);
    var r := [Fixed(lat + d.lat, lng + d.lng)] + Running(ds, lat + d.lat, lng + d.lng);
    forall k | 0 <= k < |l|
      ensures l[k] == r[k]
    {
      var pre := ([d] + ds)[..k + 1];
      assert pre[0] == d;
      if k > 0 {
        assert pre[1..] == ds[..k];
      } else {
        assert pre[1..] == [];
      }
      assert SumLat(pre) == d.lat + SumLat(pre[1..]);
      assert SumLng(pre) == d.lng + SumLng(pre[1..]);
    }
  }

  /** The accumulators are prefix sums of the deltas: decoding succeeds
      exactly when tokenizing the deltas does, with the same error, and
      point k carries the sums of the first k + 1 latitude and longitude
      deltas. */
  lemma {:induction false} DecodeIsPrefixSums(s: seq<uint8>, i: nat, lat: int, lng: int)
    requires i <= |s|
    ensures DecodeFrom(s, i, lat, lng).Err? <==> Deltas(s, i).Err?
    ensures DecodeFrom(s, i, lat, lng).Err? ==> DecodeFrom(s, i, lat, lng).error == Deltas(s, i).error
    ensures DecodeFrom(s, i, lat, lng).Ok? ==> DecodeFrom(s, i, lat, lng).value == Running(Deltas(s, i).value, lat, lng)
    decreases |s| - i
  {
    if i < |s| {
      match ReadPair(s, i)
      case Err(_) =>
      case Ok((dLat, dLng, j)) =>
        DecodeIsPrefixSums(s, j, lat + dLat, lng + dLng);
        if Deltas(s, j).Ok? {
          RunningCons(Fixed(dLat, dLng), Deltas(s, j).value, lat, lng);
        }
    }
  }

  /** One point of `DecodeFrom`: a successfully read pair of deltas that
      moves the accumulators to `p` yields `p`, and decoding resumes just
      past the pair. */
  lemma DecodeStep(s: seq<uint8>, i: nat, lat: int, lng: int, p: Fixed, j: nat)
    requires i <= |s|
    requires ReadPair(s, i) == Ok((p.lat - lat, p.lng - lng, j))
    ensures j <= |s|
    ensures DecodeFrom(s, i, lat, lng) == Prepend([p], DecodeFrom(s, j, p.lat, p.lng))
  {
    assert Fixed(lat + (p.lat - lat), lng + (p.lng - lng)) == p;
  }

  /** A precision of zero or less decodes as 6 digits. */
  lemma NonPositivePrecisionIsDefault(encoded: seq<uint8>, precision: int)
    requires precision <= 0
    ensures Decode(encoded, precision) == Decode(encoded, DefaultPrecision)
  {
  }
}
