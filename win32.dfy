/** The `FIND_DATA` record of `Spi.Native.Win32`: one directory-listing entry as
    `FindFirstFile`/`FindNextFile` fill it in. The P/Invoke declarations of the
    same file are native calls and are not part of this model. */
module Win32 {
  import opened Misc

  datatype FindData = FindData(
    dwFileAttributes: bv32,
    ftCreationTime: FileTime,
    ftLastAccessTime: FileTime,
    ftLastWriteTime: FileTime,
    nFileSizeHigh: uint32,
    nFileSizeLow: uint32,
    dwReserved0: uint32,
    dwReserved1: uint32,
    cFileName: string,
    cAlternateFileName: string)
  {
    /** `FileSize`: the two 32-bit halves assembled into one 64-bit size. */
    function FileSize(): (r: uint64)
      ensures r == nFileSizeHigh * TWO32 + nFileSizeLow
    {
      TwoUIntsToULong(nFileSizeHigh, nFileSizeLow)
    }

    /** `ToString`: the entry's file name. */
    function ToString(): (r: string)
      ensures r == cFileName
    {
      cFileName
    }
  }

  /** `default(FIND_DATA)`: every field zero. Its `cFileName` is `null` in .NET;
      here it is the empty string, which no listed entry has. */
  const DefaultFindData := FindData(0, FileTime(0, 0), FileTime(0, 0), FileTime(0, 0), 0, 0, 0, 0, "", "")

  /** `Misc.IsDirectory(FIND_DATA)`: the entry's directory attribute bit. */
  function IsDirectoryEntry(fd: FindData): (r: bool)
    ensures r <==> (fd.dwFileAttributes >> 4) % 2 == 1
  {
    IsDirectory(fd.dwFileAttributes)
  }

  /** `FIND_DATA.Equals(FIND_DATA)`: attributes, last-write time, both size halves,
      the name and the assembled size. */
  function Equals(x: FindData, other: FindData): bool {
    && x.dwFileAttributes == other.dwFileAttributes
    && x.ftLastWriteTime == other.ftLastWriteTime
    && x.nFileSizeHigh == other.nFileSizeHigh
    && x.nFileSizeLow == other.nFileSizeLow
    && x.cFileName == other.cFileName
    && x.FileSize() == other.FileSize()
  }

  /** The fields `Equals` looks at. */
  datatype EqualityKey = EqualityKey(
    dwFileAttributes: bv32, ftLastWriteTime: FileTime,
    nFileSizeHigh: uint32, nFileSizeLow: uint32, cFileName: string)

  function KeyOf(x: FindData): EqualityKey {
    EqualityKey(x.dwFileAttributes, x.ftLastWriteTime, x.nFileSizeHigh, x.nFileSizeLow, x.cFileName)
  }

  /** `Equals` holds exactly when the compared fields agree: creation time, access
      time, the alternate name and the reserved words play no part, and the
      `FileSize` conjunct adds nothing to the two halves. */
  lemma {:induction false} EqualsIffSameKey(x: FindData, y: FindData)
    ensures Equals(x, y) <==> KeyOf(x) == KeyOf(y)
  {
    if KeyOf(x) == KeyOf(y) {
      assert x.FileSize() == y.FileSize();
    }
  }

  /** `Equals` is reflexive and symmetric. */
  lemma EqualsReflexiveSymmetric(x: FindData, y: FindData)
    ensures Equals(x, x)
    ensures Equals(x, y) ==> Equals(y, x)
  {
  }

  /** Creation time, last-access time, the reserved words and the alternate
      name take no part in `Equals`: each may be replaced independently of the
      others and the entry stays equal to the original. */
  lemma EqualsIgnoresOtherFields(x: FindData, created: FileTime, accessed: FileTime,
                                 reserved0: uint32, reserved1: uint32, alternate: string)
    ensures var y := x.(ftCreationTime := created, ftLastAccessTime := accessed,
                        dwReserved0 := reserved0, dwReserved1 := reserved1, cAlternateFileName := alternate);
            Equals(x, y) && Equals(y, x)
  {
  }

  /** The argument of `Equals(object)`: a boxed `FIND_DATA` or anything else. */
  datatype Boxed = BoxedFindData(fd: FindData) | OtherObject

  /** `Equals(object)`: false for anything that is not a `FIND_DATA`, otherwise the
      typed `Equals`. */
  function EqualsObject(x: FindData, obj: Boxed): (r: bool)
    ensures obj.OtherObject? ==> !r
    ensures obj.BoxedFindData? ==> (r <==> KeyOf(x) == KeyOf(obj.fd))
  {
    EqualsIffSameKey(x, if obj.BoxedFindData? then obj.fd else x);
    obj.BoxedFindData? && Equals(x, obj.fd)
  }
}
