/** The integer and bit helpers of `Spi.Misc`: assembling 64-bit values from the
    two 32-bit halves the Win32 API hands out, attribute-bit tests, the "." / ".."
    filter and three-way comparisons. .NET's fixed-width integers are subset types
    of `int`; each cast the source performs is written out as a function. */
module Misc {

  const TWO32: int := 0x1_0000_0000
  const TWO63: int := 0x8000_0000_0000_0000
  const TWO64: int := 0x1_0000_0000_0000_0000

  type uint32 = x: int | 0 <= x < 0x1_0000_0000
  type int32 = x: int | -0x8000_0000 <= x < 0x8000_0000
  type uint64 = x: int | 0 <= x < 0x1_0000_0000_0000_0000
  type int64 = x: int | -0x8000_0000_0000_0000 <= x < 0x8000_0000_0000_0000

  /** `System.Runtime.InteropServices.ComTypes.FILETIME`: a count of 100-nanosecond
      ticks split into two SIGNED 32-bit halves. */
  datatype FileTime = FileTime(dwLowDateTime: int32, dwHighDateTime: int32)

  const FILE_ATTRIBUTE_DIRECTORY: bv32 := 0x10

  // ---------------------------------------------------------------- casts

  /** `(uint)x` for an `int`: the same 32 bits read as unsigned. */
  function AsUInt32(x: int32): (r: uint32)
    ensures r % TWO32 == x % TWO32
    ensures x >= 0 ==> r == x
  {
    if x < 0 then x + TWO32 else x
  }

  /** `(long)u` for a `ulong`: the same 64 bits read as signed. */
  function AsInt64(u: uint64): (r: int64)
    ensures r % TWO64 == u
  {
    if u >= TWO63 then u - TWO64 else u
  }

  /** `(ulong)x` for a `long`: the same 64 bits read as unsigned. */
  function AsUInt64(x: int64): (r: uint64)
    ensures r == x % TWO64
  {
    if x < 0 then x + TWO64 else x
  }

  /** The `long` that unchecked 64-bit arithmetic yields for the exact value `x`. */
  function WrapInt64(x: int): (r: int64)
    ensures r % TWO64 == x % TWO64
  {
    AsInt64(x % TWO64)
  }

  /** `(int)x` for a `long`: the low 32 bits read as signed. */
  function TruncToInt32(x: int64): (r: int32)
    ensures r % TWO32 == x % TWO32
    ensures r == 0 <==> x % TWO32 == 0
  {
    var low := x % TWO32;
    if low >= 0x8000_0000 then low - TWO32 else low
  }

  // ------------------------------------------------------ 64-bit assembly

  /** `TwoIntToLong`: `high`'s 32 bits above `low`'s 32 bits, read as a signed
      `long`. Arithmetically that is `high * 2^32` plus `low` taken as unsigned. */
  function TwoIntToLong(high: int32, low: int32): (r: int64)
    ensures r == high * TWO32 + AsUInt32(low)
  {
    var h := AsUInt32(high) * TWO32;   // (ulong)high << 32
    var l := AsUInt32(low);            // (uint)low
    AsInt64(h + l)                     // h | l: the two bit ranges are disjoint
  }

  /** Splitting the result of `TwoIntToLong` recovers both halves. */
  lemma TwoIntToLongRoundTrip(high: int32, low: int32)
    ensures TwoIntToLong(high, low) / TWO32 == high
    ensures TwoIntToLong(high, low) % TWO32 == AsUInt32(low)
  {
  }

  /** `TwoUIntsToULong`: `high`'s bits above `low`'s bits. */
  function TwoUIntsToULong(high: uint32, low: uint32): (r: uint64)
    ensures r / TWO32 == high && r % TWO32 == low
  {
    high * TWO32 + low
  }

  /** `FiletimeToLong`: the tick count of a FILETIME as a signed `long`. */
  function FiletimeToLong(ft: FileTime): (r: int64)
    ensures r == TwoIntToLong(ft.dwHighDateTime, ft.dwLowDateTime)
    ensures r == ft.dwHighDateTime * TWO32 + AsUInt32(ft.dwLowDateTime)
  {
    TwoIntToLong(ft.dwHighDateTime, ft.dwLowDateTime)
  }

  /** Two FILETIMEs with the same tick count are the same FILETIME. */
  lemma {:induction false} FiletimeToLongInjective(a: FileTime, b: FileTime)
    requires FiletimeToLong(a) == FiletimeToLong(b)
    ensures a == b
  {
    TwoIntToLongRoundTrip(a.dwHighDateTime, a.dwLowDateTime);
    TwoIntToLongRoundTrip(b.dwHighDateTime, b.dwLowDateTime);
  }

  // ---------------------------------------------------------------- names

  /** `IsDotOrDotDotDirectory`: the two pseudo entries every directory listing
      holds. The source reads `Filename[0]`, so it needs a non-empty name. */
  function IsDotOrDotDotDirectory(fileName: string): (r: bool)
    requires |fileName| > 0
    ensures r <==> fileName == "." || fileName == ".."
  {
    if fileName[0] == '.' then
      if |fileName| == 1 then true
      else if fileName[1] == '.' then |fileName| == 2
      else false
    else false
  }

  // ----------------------------------------------------------- attributes

  /** `IsDirectory(uint)`: the FILE_ATTRIBUTE_DIRECTORY bit (0x10, bit 4) is set. */
  function IsDirectory(attributes: bv32): (r: bool)
    ensures r <==> (attributes >> 4) % 2 == 1
  {
    attributes & FILE_ATTRIBUTE_DIRECTORY != 0
  }

  // ---------------------------------------------------------- comparisons

  /** `CompareULongsToInt`: -1, 0 or 1 as `a` is below, equal to or above `b`. */
  function CompareULongsToInt(a: uint64, b: uint64): (r: int)
    ensures r == -1 <==> a < b
    ensures r == 0 <==> a == b
    ensures r == 1 <==> a > b
  {
    if a < b then -1
    else if a > b then 1
    else 0
  }

  /** Swapping the arguments of `CompareULongsToInt` negates the result. */
  lemma CompareULongsToIntAntisymmetric(a: uint64, b: uint64)
    ensures CompareULongsToInt(a, b) == -CompareULongsToInt(b, a)
  {
  }

  /** The tick count as unsigned: the high half above the low half, both unsigned. */
  lemma {:induction false} FiletimeAsUnsigned(ft: FileTime)
    ensures AsUInt64(FiletimeToLong(ft)) == AsUInt32(ft.dwHighDateTime) * TWO32 + AsUInt32(ft.dwLowDateTime)
  {
    var h, l := ft.dwHighDateTime, AsUInt32(ft.dwLowDateTime);
    if h < 0 {
      calc {
        AsUInt64(FiletimeToLong(ft));
        h * TWO32 + l + TWO64;
        (h + TWO32) * TWO32 + l;
      }
    }
  }

  /** `Misc.CmpFileTimes`: compares two FILETIMEs as unsigned 64-bit tick counts,
      that is by the unsigned high halves and then the unsigned low halves. */
  function CmpFileTimes(a: FileTime, b: FileTime): (r: int)
    ensures r == 0 <==> a == b
    ensures r == -1 <==>
      AsUInt32(a.dwHighDateTime) < AsUInt32(b.dwHighDateTime) ||
      (a.dwHighDateTime == b.dwHighDateTime && AsUInt32(a.dwLowDateTime) < AsUInt32(b.dwLowDateTime))
    ensures r == -1 || r == 0 || r == 1
  {
    FiletimeAsUnsigned(a);
    FiletimeAsUnsigned(b);
    var aLong := FiletimeToLong(a);
    var bLong := FiletimeToLong(b);
    var r := CompareULongsToInt(AsUInt64(aLong), AsUInt64(bLong));
    assert r == 0 ==> a == b by {
      if r == 0 {
        FiletimeToLongInjective(a, b);
      }
    }
    r
  }
}
