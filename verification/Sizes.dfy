/**
 Sizes: GB/byte conversion with 64-bit wrap-around, and the choice of a capacity
 from a CSI capacity range (controllerserver_helper.go:29-43, 348-404).
 */
module Sizes {
  import opened GoText

  const GIB := 0x4000_0000
  const TWO_64 := 0x1_0000_0000_0000_0000
  const MIN_VOLUME_BYTES := 10 * GIB

  datatype CapacityRange = CapacityRange(required: int, limit: int)

  datatype CapacityError = NeitherBound | NegativeBound | LimitTooSmall

  datatype Capacity = Bytes(size: int) | Refused(error: CapacityError)

  // A 64-bit two's complement result.
  function Wrap64(n: int): (r: int)
    ensures IsInt(r)
  {
    var m := n % TWO_64;
    if m > MAX_INT then m - TWO_64 else m
  }

  // `int(numBytes >> 30)`: the arithmetic shift floors.
  function BytesToGB(bytes: int): int {
    bytes / GIB
  }

  // `int64(gb << 30)`: the shift drops the high bits.
  function GbToBytes(gb: int): int {
    Wrap64(gb * GIB)
  }

  lemma GbToBytesExact(gb: int)
    requires -0x2_0000_0000 <= gb < 0x2_0000_0000
    ensures GbToBytes(gb) == gb * GIB
  {
    if gb < 0 {
      assert (gb * GIB) % TWO_64 == gb * GIB + TWO_64;
    }
  }

  // The two conversions are inverse exactly on the GB figures that survive the shift.
  lemma ConversionRoundTrip(gb: int)
    ensures BytesToGB(GbToBytes(gb)) == gb <==> -0x2_0000_0000 <= gb < 0x2_0000_0000
  {
    if -0x2_0000_0000 <= gb < 0x2_0000_0000 {
      GbToBytesExact(gb);
      assert gb * GIB / GIB == gb;
    } else {
      var b := GbToBytes(gb);
      assert MIN_INT / GIB <= BytesToGB(b) <= MAX_INT / GIB;
    }
  }

  // Converting a byte count down and up again loses less than one GiB, and nothing
  // exactly when the count was a whole number of GiB.
  lemma TruncationLoss(bytes: int)
    requires IsInt(bytes)
    ensures 0 <= bytes - GbToBytes(BytesToGB(bytes)) < GIB
    ensures GbToBytes(BytesToGB(bytes)) == bytes <==> bytes % GIB == 0
  {
    GbToBytesExact(BytesToGB(bytes));
  }

  function AdjustToMinimum(size: int): int {
    if size < MIN_VOLUME_BYTES then MIN_VOLUME_BYTES else size
  }

  function OptimalSize(required: int, limit: int): int {
    if required == 0 || required < limit then limit else required
  }

  function RequestedCapacity(range: Option<CapacityRange>): Capacity {
    match range
    case None => Bytes(MIN_VOLUME_BYTES)
    case Some(CapacityRange(required, limit)) =>
      if required == 0 && limit == 0 then Refused(NeitherBound)
      else if required < 0 || limit < 0 then Refused(NegativeBound)
      else if limit == 0 then Bytes(AdjustToMinimum(required))
      else if limit < MIN_VOLUME_BYTES then Refused(LimitTooSmall)
      else Bytes(OptimalSize(required, limit))
  }

  function Max(a: int, b: int): int {
    if a < b then b else a
  }

  // Closed form of the capacity choice.
  lemma CapacityClosedForm(required: int, limit: int)
    ensures RequestedCapacity(Some(CapacityRange(required, limit))).Refused? <==>
      (required == 0 && limit == 0) || required < 0 || limit < 0 || 0 < limit < MIN_VOLUME_BYTES
    ensures RequestedCapacity(Some(CapacityRange(required, limit))).Bytes? ==>
      RequestedCapacity(Some(CapacityRange(required, limit))).size
        == Max(required, Max(limit, MIN_VOLUME_BYTES))
  {
  }

  ghost predicate AcceptsRange(range: Option<CapacityRange>) {
    match range
    case None => true
    case Some(CapacityRange(required, limit)) =>
      required >= 0 && limit >= 0 && (required > 0 || limit > 0) && (limit > 0 ==> limit >= 10 * GIB)
  }

  // The bytes an accepted range stands for: the largest of its bounds and 10 GiB.
  function BytesAsked(range: Option<CapacityRange>): int {
    match range
    case None => 10 * GIB
    case Some(CapacityRange(required, limit)) => Max(required, Max(limit, 10 * GIB))
  }

  // The whole capacity choice: which ranges are refused and why, and the size otherwise,
  // 10 GiB when there is no range.
  lemma CapacityExactly(range: Option<CapacityRange>)
    ensures RequestedCapacity(range).Bytes? <==> AcceptsRange(range)
    ensures AcceptsRange(range) ==> RequestedCapacity(range) == Bytes(BytesAsked(range))
    ensures RequestedCapacity(range) == Refused(NeitherBound) <==> range == Some(CapacityRange(0, 0))
    ensures RequestedCapacity(range) == Refused(NegativeBound)
      <==> range.Some? && (range.value.required < 0 || range.value.limit < 0)
  {
  }

  // What the range asks for against what it gets. The limit is respected exactly when
  // it is not below the required size; the volume that results, counted in whole GiB,
  // is large enough exactly when the required size is a whole number of GiB or is
  // covered by the limit or the minimum after truncation.
  lemma CapacityBounds(required: int, limit: int)
    requires IsInt(required) && IsInt(limit)
    requires RequestedCapacity(Some(CapacityRange(required, limit))).Bytes?
    ensures var size := RequestedCapacity(Some(CapacityRange(required, limit))).size;
      && MIN_VOLUME_BYTES <= size <= MAX_INT
      && required <= size
      && (limit > 0 ==> (size <= limit <==> required <= limit))
      && (limit > 0 && required <= limit ==> size == limit)
      && (required <= GbToBytes(BytesToGB(size)) <==>
          required % GIB == 0 || required <= GbToBytes(BytesToGB(Max(limit, MIN_VOLUME_BYTES))))
      && 10 <= BytesToGB(size)
  {
    var size := RequestedCapacity(Some(CapacityRange(required, limit))).size;
    var floor := Max(limit, MIN_VOLUME_BYTES);
    TruncationLoss(size);
    TruncationLoss(floor);
  }
}
