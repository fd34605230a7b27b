/**
 * `FormatSize`: the human-readable size shown in deletion events and in the
 * summary. The number is divided by 1024 while it is at least 1024 and a
 * larger unit is left; the units are B, KB, MB and GB. The model returns the
 * number and the index of the unit instead of the formatted text.
 */
module SizeFormat {

  const Units: seq<string> := ["B", "KB", "MB", "GB"]

  /** 1024 to the power `order`: the bytes in one unit of index `order`. */
  function Scale(order: nat): (p: int)
    ensures p >= 1
  {
    if order == 0 then 1 else 1024 * Scale(order - 1)
  }

  lemma ScaleValues()
    ensures Scale(1) == 1024 && Scale(2) == 1048576 && Scale(3) == 1073741824
  {
  }

  /** The unit index a size is shown in: the largest unit that the size
      reaches, except that GB is the last unit. */
  function UnitFor(size: int): (order: nat)
    ensures order < |Units|
    ensures order > 0 ==> Scale(order) <= size
    ensures order + 1 < |Units| ==> size < Scale(order + 1)
  {
    ScaleValues();
    if size < 1024 then 0
    else if size < 1048576 then 1
    else if size < 1073741824 then 2
    else 3
  }

  /** Multiplying by a non-negative factor keeps the order. */
  lemma MultiplyMonotone(x: int, y: int, k: int)
    requires x <= y && k >= 0
    ensures x * k <= y * k
  {
  }

  /** Dividing the shown value by 1024 and moving to the next unit keeps it
      the size in that unit rounded down. */
  lemma DivideStep(value: int, size: int, scale: int)
    requires scale >= 1 && value >= 0 && value * scale <= size < (value + 1) * scale
    ensures value / 1024 * (1024 * scale) <= size < (value / 1024 + 1) * (1024 * scale)
  {
    var next := value / 1024;
    assert next * 1024 <= value < (next + 1) * 1024;
    MultiplyMonotone(next * 1024, value, scale);
    MultiplyMonotone(value + 1, (next + 1) * 1024, scale);
    assert next * (1024 * scale) == (next * 1024) * scale;
    assert (next + 1) * (1024 * scale) == ((next + 1) * 1024) * scale;
  }

  /** `FormatSize` as written: integer division, so 1536 bytes show as 1 KB.
      For a size of zero or more, `value` is `size / 1024^order` rounded down. */
  method FormatSize(size: int) returns (value: int, order: nat)
    ensures order < |Units| && order == UnitFor(size)
    ensures size >= 0 ==> value * Scale(order) <= size < (value + 1) * Scale(order)
    ensures size < 0 ==> value == size && order == 0
    ensures order + 1 < |Units| ==> value < 1024
  {
    value, order := size, 0;
    while value >= 1024 && order + 1 < |Units|
      invariant order < |Units|
      invariant size >= 0 ==> value * Scale(order) <= size < (value + 1) * Scale(order)
      invariant size < 0 ==> value == size && order == 0
      invariant order > 0 ==> value >= 1
    {
      if size >= 0 {
        DivideStep(value, size, Scale(order));
      }
      assert Scale(order + 1) == 1024 * Scale(order);
      order := order + 1;
      value := value / 1024;
    }
    if order > 0 {
      MultiplyMonotone(1, value, Scale(order));
    }
    if order + 1 < |Units| && size >= 0 {
      MultiplyMonotone(value + 1, 1024, Scale(order));
      assert Scale(order + 1) == 1024 * Scale(order);
    }
    ScaleValues();
  }

  /** 1536 bytes show as "1 KB", 2^40 bytes as "1024 GB" (no unit past GB). */
  lemma FormatSizeExamples()
    ensures UnitFor(1536) == 1 && 1536 / Scale(1) == 1
    ensures UnitFor(1099511627776) == 3 && 1099511627776 / Scale(3) == 1024
    ensures UnitFor(0) == 0
  {
    ScaleValues();
  }

  /** Half-up rounding of `n / d` to an integer, for `n >= 0`. */
  function RoundedQuotient(n: int, d: int): (q: int)
    requires n >= 0 && d > 0
    ensures 2 * q * d - d <= 2 * n <= 2 * q * d + d - 1
  {
    (2 * n + d) / (2 * d)
  }

  /** The size as `{0:0.##}` evidently meant to show it: the exact quotient
      `size / 1024^order`, rounded to hundredths, so 1536 bytes show as 1.5 KB.
      The result is the shown value times 100. */
  method FormatSizeRounded(size: int) returns (hundredths: int, order: nat)
    requires size >= 0
    ensures order < |Units| && order == UnitFor(size)
    ensures 2 * hundredths * Scale(order) - Scale(order) <= 200 * size
    ensures 200 * size < 2 * hundredths * Scale(order) + Scale(order)
  {
    var whole: int;
    whole, order := FormatSize(size);
    hundredths := RoundedQuotient(100 * size, Scale(order));
  }

  /** With the rounding, 1536 bytes show as 1.50 KB. */
  lemma RoundedExample()
    ensures UnitFor(1536) == 1 && RoundedQuotient(100 * 1536, Scale(1)) == 150
  {
    ScaleValues();
  }
}
