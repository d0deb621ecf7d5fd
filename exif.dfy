/**
 * The EXIF side of the JPEG decoder: recognising the TIFF byte-order mark of an
 * APP1 "Exif" block, walking the 12-byte entries of an Image File Directory
 * (IFD) for the Orientation tag (274) and the Exif IFD pointer (34665), and the
 * single secondary pass through the directory that pointer names.
 *
 * Every read is an Option: None stands for JavaScript's NaN from a read past the
 * end of the block, and the model follows what the code does with NaN (a
 * comparison with it is false, and it is falsy).
 */
module Exif {
  import opened Wrappers
  import opened Bytes

  const APP1_DATA_SIZE_BYTES: nat := 2
  const EXIF_HEADER_BYTES: nat := 6
  const TIFF_HEADER_OFFSET: nat := 4
  const IDF_ENTRY_BYTES: nat := 12
  const NUM_DIRECTORY_ENTRIES_BYTES: nat := 2
  const ORIENTATION_TAG: nat := 274
  const EXIF_IFD_TAG: nat := 34665
  /** The unsigned-short EXIF data format. */
  const FORMAT_SHORT: nat := 3

  const BIG_ENDIAN_BYTE_ALIGN: seq<Byte> := [0x4D, 0x4D]     // "MM"
  const LITTLE_ENDIAN_BYTE_ALIGN: seq<Byte> := [0x49, 0x49]  // "II"

  /** What one directory walk found: the orientation and the Exif IFD offset, each optional. */
  datatype DirectoryScan = DirectoryScan(orientation: Option<nat>, exifOffset: Option<nat>)

  const NOTHING_FOUND := DirectoryScan(None, None)

  /** JavaScript truthiness of a number that may be undefined or NaN. */
  predicate Truthy(v: Option<nat>) { v.Some? && v.value != 0 }

  // ---------------------------------------------------------------------------
  // Byte order

  /**
   * The byte order of an EXIF block (which starts at "Exif\0\0"): Some(true) for
   * "MM" at offset 6, Some(false) for "II", None otherwise.
   */
  function ByteOrderOf(exifBlock: seq<Byte>): (r: Option<bool>)
    ensures r == Some(true) <==> |exifBlock| >= 8 && exifBlock[6] == 0x4D && exifBlock[7] == 0x4D
    ensures r == Some(false) <==> |exifBlock| >= 8 && exifBlock[6] == 0x49 && exifBlock[7] == 0x49
  {
    if Matches(exifBlock, EXIF_HEADER_BYTES, BIG_ENDIAN_BYTE_ALIGN) then Some(true)
    else if Matches(exifBlock, EXIF_HEADER_BYTES, LITTLE_ENDIAN_BYTE_ALIGN) then Some(false)
    else None
  }

  // ---------------------------------------------------------------------------
  // One directory entry

  /**
   * Where entry n of the directory at `offset` begins: after the 2-byte count
   * (NUM_DIRECTORY_ENTRIES_BYTES), IDF_ENTRY_BYTES = 12 bytes per entry. The
   * sizes are written as literals so that the product stays linear arithmetic.
   */
  function EntryStart(offset: nat, n: nat): (start: nat)
  {
    offset + 2 + 12 * n
  }

  /**
   * The (possibly truncated) 12 bytes of entry n, `exifBlock.slice(start, end)`:
   * the bytes of the block from the entry's start, at most 12 of them.
   */
  function EntryAt(exifBlock: seq<Byte>, offset: nat, n: nat): (e: seq<Byte>)
    ensures |e| == if EntryStart(offset, n) >= |exifBlock| then 0
                   else Min(IDF_ENTRY_BYTES, |exifBlock| - EntryStart(offset, n))
    ensures forall i :: 0 <= i < |e| ==> e[i] == exifBlock[EntryStart(offset, n) + i]
  {
    Slice(exifBlock, EntryStart(offset, n), EntryStart(offset, n) + IDF_ENTRY_BYTES)
  }

  /**
   * A field read from the sliced entry is the same read taken from the block at
   * the entry's start plus the field's offset, even when the entry is cut off by
   * the end of the block: every field lies within the entry's 12 bytes.
   */
  lemma EntryFieldRead(exifBlock: seq<Byte>, offset: nat, n: nat, bits: nat, at: nat, bigEndian: bool)
    requires bits == 16 || bits == 32
    requires at + bits / 8 <= IDF_ENTRY_BYTES
    ensures ReadUInt(EntryAt(exifBlock, offset, n), bits, at, bigEndian) ==
            ReadUInt(exifBlock, bits, EntryStart(offset, n) + at, bigEndian)
  {
    var e := EntryAt(exifBlock, offset, n);
    var start := EntryStart(offset, n);
    if at + bits / 8 <= |e| {
      assert e[at] == exifBlock[start + at] && e[at + 1] == exifBlock[start + at + 1];
      if bits == 32 {
        assert e[at + 2] == exifBlock[start + at + 2] && e[at + 3] == exifBlock[start + at + 3];
      }
    }
  }

  /** The entry starting at `start` carries the Orientation tag. */
  predicate IsOrientationEntry(w: seq<Byte>, start: nat, bigEndian: bool)
  {
    ReadUInt(w, 16, start, bigEndian) == Some(ORIENTATION_TAG)
  }

  /** The entry starting at `start` carries the Exif IFD pointer tag. */
  predicate IsPointerEntry(w: seq<Byte>, start: nat, bigEndian: bool)
  {
    ReadUInt(w, 16, start, bigEndian) == Some(EXIF_IFD_TAG)
  }

  /** Entry n of the directory at `offset` carries the Orientation tag. */
  predicate OrientationTagAt(exifBlock: seq<Byte>, offset: nat, n: nat, bigEndian: bool)
  {
    IsOrientationEntry(exifBlock, EntryStart(offset, n), bigEndian)
  }

  /** Entry n of the directory at `offset` carries the Exif IFD pointer tag. */
  predicate PointerTagAt(exifBlock: seq<Byte>, offset: nat, n: nat, bigEndian: bool)
  {
    IsPointerEntry(exifBlock, EntryStart(offset, n), bigEndian)
  }

  /** Entry n of the directory at `offset` carries the Orientation tag and a readable non-zero value. */
  predicate UsableOrientationAt(exifBlock: seq<Byte>, offset: nat, n: nat, bigEndian: bool)
  {
    OrientationTagAt(exifBlock, offset, n, bigEndian) &&
    Truthy(ReadUInt(exifBlock, 16, EntryStart(offset, n) + 8, bigEndian))
  }

  /** The Orientation entry starting at `start` holds one unsigned short. */
  predicate WellFormedOrientation(w: seq<Byte>, start: nat, bigEndian: bool)
  {
    ReadUInt(w, 16, start + 2, bigEndian) == Some(FORMAT_SHORT) &&
    ReadUInt(w, 32, start + 4, bigEndian) == Some(1)
  }

  /** An entry that ends the walk with nothing found: past the block, or a malformed Orientation entry. */
  predicate BadEntry(exifBlock: seq<Byte>, offset: nat, n: nat, bigEndian: bool)
  {
    EntryStart(offset, n) > |exifBlock| ||
    (IsOrientationEntry(exifBlock, EntryStart(offset, n), bigEndian) &&
     !WellFormedOrientation(exifBlock, EntryStart(offset, n), bigEndian))
  }

  datatype EntryOutcome = Continue(scan: DirectoryScan) | Abandon

  /**
   * The five reads `extractOrientationFromOffset` may make on one entry: the tag
   * (u16 at 0), the data format (u16 at 2), the component count (u32 at 4), and
   * the value at 8 as an orientation (u16) or as an Exif IFD offset (u32).
   */
  datatype EntryFields = EntryFields(tag: Option<nat>, format: Option<nat>, components: Option<nat>,
                                     shortValue: Option<nat>, longValue: Option<nat>)

  /** The fields of the entry starting at `start` of `w`. */
  function FieldsAt(w: seq<Byte>, start: nat, bigEndian: bool): (f: EntryFields)
    ensures f.tag.Some? <==> start + 2 <= |w|
    ensures f.longValue.Some? <==> start + 12 <= |w|
  {
    EntryFields(ReadUInt(w, 16, start, bigEndian), ReadUInt(w, 16, start + 2, bigEndian),
                ReadUInt(w, 32, start + 4, bigEndian), ReadUInt(w, 16, start + 8, bigEndian),
                ReadUInt(w, 32, start + 8, bigEndian))
  }

  /** What one entry's fields do to what the walk has found so far. */
  function VisitFields(f: EntryFields, scan: DirectoryScan): (r: EntryOutcome)
  {
    if f.tag == Some(ORIENTATION_TAG) then
      if f.format != Some(FORMAT_SHORT) then Abandon
      else if f.components != Some(1) then Abandon
      else Continue(scan.(orientation := f.shortValue))
    else if f.tag == Some(EXIF_IFD_TAG) then
      Continue(scan.(exifOffset := f.longValue))
    else Continue(scan)
  }

  /** The effect of the entry starting at `start` of `w` on what the walk has found so far. */
  function VisitEntry(w: seq<Byte>, start: nat, bigEndian: bool, scan: DirectoryScan): (r: EntryOutcome)
    ensures r.Abandon? <==> IsOrientationEntry(w, start, bigEndian) && !WellFormedOrientation(w, start, bigEndian)
    ensures r.Continue? && IsOrientationEntry(w, start, bigEndian) ==>
      r.scan == scan.(orientation := ReadUInt(w, 16, start + 8, bigEndian))
    ensures IsPointerEntry(w, start, bigEndian) ==>
      r == Continue(scan.(exifOffset := ReadUInt(w, 32, start + 8, bigEndian)))
    ensures !IsOrientationEntry(w, start, bigEndian) && !IsPointerEntry(w, start, bigEndian) ==> r == Continue(scan)
  {
    VisitFields(FieldsAt(w, start, bigEndian), scan)
  }

  /**
   * The fields read from the sliced entry, as `extractOrientationFromOffset` reads
   * them, are the fields of the entry in place in the block.
   */
  lemma SlicedEntryFields(exifBlock: seq<Byte>, offset: nat, n: nat, bigEndian: bool)
    ensures FieldsAt(EntryAt(exifBlock, offset, n), 0, bigEndian) == FieldsAt(exifBlock, EntryStart(offset, n), bigEndian)
  {
    EntryFieldRead(exifBlock, offset, n, 16, 0, bigEndian);
    EntryFieldRead(exifBlock, offset, n, 16, 2, bigEndian);
    EntryFieldRead(exifBlock, offset, n, 32, 4, bigEndian);
    EntryFieldRead(exifBlock, offset, n, 16, 8, bigEndian);
    EntryFieldRead(exifBlock, offset, n, 32, 8, bigEndian);
  }

  // ---------------------------------------------------------------------------
  // A directory walk

  /** The walk of entries n, n+1, ..., count-1 of the directory at `offset`, having found `scan` so far. */
  function Walk(exifBlock: seq<Byte>, count: nat, offset: nat, bigEndian: bool, n: nat, scan: DirectoryScan): (r: DirectoryScan)
    decreases count - n
  {
    if n >= count then scan
    else if EntryStart(offset, n) > |exifBlock| then NOTHING_FOUND
    else match VisitEntry(exifBlock, EntryStart(offset, n), bigEndian, scan)
      case Abandon => NOTHING_FOUND
      case Continue(next) => Walk(exifBlock, count, offset, bigEndian, n + 1, next)
  }

  /** `extractOrientationFromOffset`: the counted loop over the directory's entries. */
  method ExtractOrientationFromOffset(exifBlock: seq<Byte>, idfDirectoryEntries: nat, offset: nat, bigEndian: bool)
    returns (found: DirectoryScan)
    ensures found == Walk(exifBlock, idfDirectoryEntries, offset, bigEndian, 0, NOTHING_FOUND)
  {
    found := NOTHING_FOUND;
    for directoryEntryNumber := 0 to idfDirectoryEntries
      invariant Walk(exifBlock, idfDirectoryEntries, offset, bigEndian, directoryEntryNumber, found)
             == Walk(exifBlock, idfDirectoryEntries, offset, bigEndian, 0, NOTHING_FOUND)
    {
      var start := offset + NUM_DIRECTORY_ENTRIES_BYTES + directoryEntryNumber * IDF_ENTRY_BYTES;
      var end := start + IDF_ENTRY_BYTES;
      assert start == EntryStart(offset, directoryEntryNumber);
      if start > |exifBlock| {
        return NOTHING_FOUND;
      }
      var block := Slice(exifBlock, start, end);
      assert block == EntryAt(exifBlock, offset, directoryEntryNumber);
      SlicedEntryFields(exifBlock, offset, directoryEntryNumber, bigEndian);
      ghost var before := found;
      var tagNumber := ReadUInt(block, 16, 0, bigEndian);
      if tagNumber == Some(ORIENTATION_TAG) {
        var dataFormat := ReadUInt(block, 16, 2, bigEndian);
        if dataFormat != Some(FORMAT_SHORT) {
          return NOTHING_FOUND;
        }
        var numberOfComponents := ReadUInt(block, 32, 4, bigEndian);
        if numberOfComponents != Some(1) {
          return NOTHING_FOUND;
        }
        found := found.(orientation := ReadUInt(block, 16, 8, bigEndian));
      } else if tagNumber == Some(EXIF_IFD_TAG) {
        found := found.(exifOffset := ReadUInt(block, 32, 8, bigEndian));
      }
      assert VisitEntry(block, 0, bigEndian, before) == Continue(found);
    }
  }

  /**
   * The walk of the directory at `offset` (None: a NaN offset): its 16-bit entry
   * count is read there, and a NaN count makes the loop run zero times.
   */
  function DirectoryAt(exifBlock: seq<Byte>, offset: Option<nat>, bigEndian: bool): (d: DirectoryScan)
  {
    if offset.None? then NOTHING_FOUND
    else match ReadUInt(exifBlock, 16, offset.value, bigEndian)
      case None => NOTHING_FOUND
      case Some(count) => Walk(exifBlock, count, offset.value, bigEndian, 0, NOTHING_FOUND)
  }

  /** The first IFD's offset in the block: the TIFF header's 32-bit pointer plus the 6-byte "Exif\0\0" header. */
  function FirstIfdOffset(exifBlock: seq<Byte>, bigEndian: bool): (r: Option<nat>)
    ensures r.Some? <==> TIFF_HEADER_OFFSET + EXIF_HEADER_BYTES + 4 <= |exifBlock|
    ensures r.Some? ==> r.value == ReadUInt(exifBlock, 32, TIFF_HEADER_OFFSET + EXIF_HEADER_BYTES, bigEndian).value + EXIF_HEADER_BYTES
  {
    match ReadUInt(exifBlock, 32, TIFF_HEADER_OFFSET + EXIF_HEADER_BYTES, bigEndian)
    case None => None
    case Some(p) => Some(p + EXIF_HEADER_BYTES)
  }

  /** The directory the secondary pass walks, if it happens: the Exif IFD pointer plus 6. */
  function SecondaryOffset(exifBlock: seq<Byte>, bigEndian: bool): (r: Option<nat>)
    ensures var primary := DirectoryAt(exifBlock, FirstIfdOffset(exifBlock, bigEndian), bigEndian);
      (r.Some? <==> !Truthy(primary.orientation) && Truthy(primary.exifOffset)) &&
      (r.Some? ==> r.value == primary.exifOffset.value + EXIF_HEADER_BYTES && r.value > EXIF_HEADER_BYTES)
  {
    var primary := DirectoryAt(exifBlock, FirstIfdOffset(exifBlock, bigEndian), bigEndian);
    if !Truthy(primary.orientation) && Truthy(primary.exifOffset)
    then Some(primary.exifOffset.value + EXIF_HEADER_BYTES)
    else None
  }

  /** What `extractOrientation` returns: the orientation found, 0 if none (or 0, or NaN). */
  function OrientationOf(exifBlock: seq<Byte>, bigEndian: bool): (orientation: nat)
  {
    var last := if SecondaryOffset(exifBlock, bigEndian).Some?
                then DirectoryAt(exifBlock, SecondaryOffset(exifBlock, bigEndian), bigEndian)
                else DirectoryAt(exifBlock, FirstIfdOffset(exifBlock, bigEndian), bigEndian);
    if Truthy(last.orientation) then last.orientation.value else 0
  }

  /** Reading a directory's entry count at `offset` and walking its entries, as each pass of `extractOrientation` does. */
  method WalkDirectory(exifBlock: seq<Byte>, offset: nat, bigEndian: bool) returns (found: DirectoryScan)
    ensures found == DirectoryAt(exifBlock, Some(offset), bigEndian)
  {
    var idfDirectoryEntries := ReadUInt(exifBlock, 16, offset, bigEndian);
    found := NOTHING_FOUND;
    if idfDirectoryEntries.Some? {
      found := ExtractOrientationFromOffset(exifBlock, idfDirectoryEntries.value, offset, bigEndian);
    }
  }

  /** `extractOrientation`: the primary walk and at most one secondary walk. */
  method ExtractOrientation(exifBlock: seq<Byte>, bigEndian: bool) returns (orientation: nat)
    ensures orientation == OrientationOf(exifBlock, bigEndian)
  {
    var pointer := ReadUInt(exifBlock, 32, TIFF_HEADER_OFFSET + EXIF_HEADER_BYTES, bigEndian);
    var found := NOTHING_FOUND;
    if pointer.Some? {
      found := WalkDirectory(exifBlock, pointer.value + EXIF_HEADER_BYTES, bigEndian);
    }
    assert found == DirectoryAt(exifBlock, FirstIfdOffset(exifBlock, bigEndian), bigEndian);
    if !Truthy(found.orientation) && Truthy(found.exifOffset) {
      var offset := found.exifOffset.value + EXIF_HEADER_BYTES;
      assert SecondaryOffset(exifBlock, bigEndian) == Some(offset);
      found := WalkDirectory(exifBlock, offset, bigEndian);
    } else {
      assert SecondaryOffset(exifBlock, bigEndian).None?;
    }
    orientation := if Truthy(found.orientation) then found.orientation.value else 0;
  }

  // ---------------------------------------------------------------------------
  // What a walk finds

  /** Entry k of the directory at `offset` is a well-formed Orientation entry holding v. */
  predicate OrientationEntryAt(exifBlock: seq<Byte>, offset: nat, k: nat, bigEndian: bool, v: nat)
  {
    EntryStart(offset, k) <= |exifBlock| &&
    IsOrientationEntry(exifBlock, EntryStart(offset, k), bigEndian) &&
    WellFormedOrientation(exifBlock, EntryStart(offset, k), bigEndian) &&
    ReadUInt(exifBlock, 16, EntryStart(offset, k) + 8, bigEndian) == Some(v)
  }

  /** Entry k of the directory at `offset` is an Exif IFD pointer holding x. */
  predicate PointerEntryAt(exifBlock: seq<Byte>, offset: nat, k: nat, bigEndian: bool, x: nat)
  {
    EntryStart(offset, k) <= |exifBlock| &&
    IsPointerEntry(exifBlock, EntryStart(offset, k), bigEndian) &&
    ReadUInt(exifBlock, 32, EntryStart(offset, k) + 8, bigEndian) == Some(x)
  }

  /**
   * A walk reports nothing it did not read: an orientation it returns is the value
   * of a well-formed Orientation entry among those walked, and an Exif IFD offset
   * the value of a pointer entry (unless both were already found before entry n).
   */
  lemma {:induction false} WalkSound(exifBlock: seq<Byte>, count: nat, offset: nat, bigEndian: bool, n: nat, scan: DirectoryScan)
    ensures var r := Walk(exifBlock, count, offset, bigEndian, n, scan);
      (r.orientation.Some? ==>
        r.orientation == scan.orientation ||
        exists k :: n <= k < count && OrientationEntryAt(exifBlock, offset, k, bigEndian, r.orientation.value)) &&
      (r.exifOffset.Some? ==>
        r.exifOffset == scan.exifOffset ||
        exists k :: n <= k < count && PointerEntryAt(exifBlock, offset, k, bigEndian, r.exifOffset.value))
    decreases count - n
  {
    if n < count && EntryStart(offset, n) <= |exifBlock| {
      match VisitEntry(exifBlock, EntryStart(offset, n), bigEndian, scan)
      case Abandon =>
      case Continue(next) =>
        WalkSound(exifBlock, count, offset, bigEndian, n + 1, next);
        var r := Walk(exifBlock, count, offset, bigEndian, n, scan);
        if r.orientation.Some? && r.orientation == next.orientation && next.orientation != scan.orientation {
          assert OrientationEntryAt(exifBlock, offset, n, bigEndian, r.orientation.value);
        }
        if r.exifOffset.Some? && r.exifOffset == next.exifOffset && next.exifOffset != scan.exifOffset {
          assert PointerEntryAt(exifBlock, offset, n, bigEndian, r.exifOffset.value);
        }
    }
  }

  /**
   * One bad entry anywhere in the directory voids the whole walk: an entry that
   * starts past the block, or an Orientation entry whose format is not 3 or whose
   * count is not 1, makes the walk return (none, none) whatever came before it.
   */
  lemma {:induction false} WalkAbandons(exifBlock: seq<Byte>, count: nat, offset: nat, bigEndian: bool, n: nat, scan: DirectoryScan, k: nat)
    requires n <= k < count
    requires BadEntry(exifBlock, offset, k, bigEndian)
    ensures Walk(exifBlock, count, offset, bigEndian, n, scan) == NOTHING_FOUND
    decreases k - n
  {
    if n < k && EntryStart(offset, n) <= |exifBlock| {
      match VisitEntry(exifBlock, EntryStart(offset, n), bigEndian, scan)
      case Abandon =>
      case Continue(next) => WalkAbandons(exifBlock, count, offset, bigEndian, n + 1, next, k);
    }
  }

  /** A walk past an entry that is not bad continues, from what that entry leaves found, at the next entry. */
  lemma WalkStep(exifBlock: seq<Byte>, count: nat, offset: nat, bigEndian: bool, n: nat, scan: DirectoryScan)
    requires n < count && !BadEntry(exifBlock, offset, n, bigEndian)
    ensures VisitEntry(exifBlock, EntryStart(offset, n), bigEndian, scan).Continue?
    ensures Walk(exifBlock, count, offset, bigEndian, n, scan) ==
      Walk(exifBlock, count, offset, bigEndian, n + 1, VisitEntry(exifBlock, EntryStart(offset, n), bigEndian, scan).scan)
  {
  }

  /** None of entries n..k-1 of the directory at `offset` is bad. */
  predicate NoBadEntries(exifBlock: seq<Byte>, offset: nat, bigEndian: bool, n: nat, k: nat)
    decreases k - n
  {
    n >= k || (!BadEntry(exifBlock, offset, n, bigEndian) && NoBadEntries(exifBlock, offset, bigEndian, n + 1, k))
  }

  lemma {:induction false} NoBadEntriesIn(exifBlock: seq<Byte>, offset: nat, bigEndian: bool, n: nat, k: nat)
    requires forall j :: n <= j < k ==> !BadEntry(exifBlock, offset, j, bigEndian)
    ensures NoBadEntries(exifBlock, offset, bigEndian, n, k)
    decreases k - n
  {
    if n < k {
      NoBadEntriesIn(exifBlock, offset, bigEndian, n + 1, k);
    }
  }

  /** A walk over entries n..k-1, none of them bad, arrives at entry k having found some `before`. */
  lemma {:induction false} WalkReaches(exifBlock: seq<Byte>, count: nat, offset: nat, bigEndian: bool, n: nat, scan: DirectoryScan, k: nat)
    returns (before: DirectoryScan)
    requires n <= k <= count
    requires NoBadEntries(exifBlock, offset, bigEndian, n, k)
    ensures Walk(exifBlock, count, offset, bigEndian, n, scan) == Walk(exifBlock, count, offset, bigEndian, k, before)
    decreases k - n
  {
    if n < k {
      WalkStep(exifBlock, count, offset, bigEndian, n, scan);
      before := WalkReaches(exifBlock, count, offset, bigEndian, n + 1, VisitEntry(exifBlock, EntryStart(offset, n), bigEndian, scan).scan, k);
    } else {
      before := scan;
    }
  }

  /** Entries that are neither bad nor Orientation entries leave the orientation found so far alone. */
  lemma {:induction false} WalkKeepsOrientation(exifBlock: seq<Byte>, count: nat, offset: nat, bigEndian: bool, n: nat, scan: DirectoryScan)
    requires forall j :: n <= j < count ==> !BadEntry(exifBlock, offset, j, bigEndian)
    requires forall j :: n <= j < count ==> !OrientationTagAt(exifBlock, offset, j, bigEndian)
    ensures Walk(exifBlock, count, offset, bigEndian, n, scan).orientation == scan.orientation
    decreases count - n
  {
    if n < count {
      assert !BadEntry(exifBlock, offset, n, bigEndian) && !OrientationTagAt(exifBlock, offset, n, bigEndian);
      match VisitEntry(exifBlock, EntryStart(offset, n), bigEndian, scan)
      case Abandon =>
      case Continue(next) => WalkKeepsOrientation(exifBlock, count, offset, bigEndian, n + 1, next);
    }
  }

  /**
   * Later Orientation entries overwrite earlier ones: in a directory with no bad
   * entry, the walk returns the value of the last Orientation entry.
   */
  lemma WalkFindsLastOrientation(exifBlock: seq<Byte>, count: nat, offset: nat, bigEndian: bool, n: nat, scan: DirectoryScan, k: nat, v: nat)
    requires n <= k < count
    requires forall j :: n <= j < count ==> !BadEntry(exifBlock, offset, j, bigEndian)
    requires OrientationEntryAt(exifBlock, offset, k, bigEndian, v)
    requires forall j :: k < j < count ==> !OrientationTagAt(exifBlock, offset, j, bigEndian)
    ensures Walk(exifBlock, count, offset, bigEndian, n, scan).orientation == Some(v)
  {
    NoBadEntriesIn(exifBlock, offset, bigEndian, n, k);
    var before := WalkReaches(exifBlock, count, offset, bigEndian, n, scan, k);
    WalkStep(exifBlock, count, offset, bigEndian, k, before);
    var next := VisitEntry(exifBlock, EntryStart(offset, k), bigEndian, before).scan;
    assert next.orientation == Some(v);
    WalkKeepsOrientation(exifBlock, count, offset, bigEndian, k + 1, next);
  }

  /** Entries that are neither bad nor Exif IFD pointers leave the offset found so far alone. */
  lemma {:induction false} WalkKeepsPointer(exifBlock: seq<Byte>, count: nat, offset: nat, bigEndian: bool, n: nat, scan: DirectoryScan)
    requires forall j :: n <= j < count ==> !BadEntry(exifBlock, offset, j, bigEndian)
    requires forall j :: n <= j < count ==> !PointerTagAt(exifBlock, offset, j, bigEndian)
    ensures Walk(exifBlock, count, offset, bigEndian, n, scan).exifOffset == scan.exifOffset
    decreases count - n
  {
    if n < count {
      assert !BadEntry(exifBlock, offset, n, bigEndian) && !PointerTagAt(exifBlock, offset, n, bigEndian);
      match VisitEntry(exifBlock, EntryStart(offset, n), bigEndian, scan)
      case Abandon =>
      case Continue(next) => WalkKeepsPointer(exifBlock, count, offset, bigEndian, n + 1, next);
    }
  }

  /**
   * Later Exif IFD pointers overwrite earlier ones: in a directory with no bad
   * entry, the walk returns the value of the last pointer entry.
   */
  lemma WalkFindsLastPointer(exifBlock: seq<Byte>, count: nat, offset: nat, bigEndian: bool, n: nat, scan: DirectoryScan, k: nat, x: nat)
    requires n <= k < count
    requires forall j :: n <= j < count ==> !BadEntry(exifBlock, offset, j, bigEndian)
    requires PointerEntryAt(exifBlock, offset, k, bigEndian, x)
    requires forall j :: k < j < count ==> !PointerTagAt(exifBlock, offset, j, bigEndian)
    ensures Walk(exifBlock, count, offset, bigEndian, n, scan).exifOffset == Some(x)
  {
    NoBadEntriesIn(exifBlock, offset, bigEndian, n, k);
    var before := WalkReaches(exifBlock, count, offset, bigEndian, n, scan, k);
    WalkStep(exifBlock, count, offset, bigEndian, k, before);
    var next := VisitEntry(exifBlock, EntryStart(offset, k), bigEndian, before).scan;
    assert next.exifOffset == Some(x);
    WalkKeepsPointer(exifBlock, count, offset, bigEndian, k + 1, next);
  }

  /** Orientation entries that hold only 0 or an unreadable value leave the walk without a usable orientation. */
  lemma {:induction false} WalkFindsNoOrientation(exifBlock: seq<Byte>, count: nat, offset: nat, bigEndian: bool, n: nat, scan: DirectoryScan)
    requires !Truthy(scan.orientation)
    requires forall j :: n <= j < count ==> !UsableOrientationAt(exifBlock, offset, j, bigEndian)
    ensures !Truthy(Walk(exifBlock, count, offset, bigEndian, n, scan).orientation)
    decreases count - n
  {
    if n < count && EntryStart(offset, n) <= |exifBlock| {
      assert !UsableOrientationAt(exifBlock, offset, n, bigEndian);
      match VisitEntry(exifBlock, EntryStart(offset, n), bigEndian, scan)
      case Abandon =>
      case Continue(next) => WalkFindsNoOrientation(exifBlock, count, offset, bigEndian, n + 1, next);
    }
  }

  /**
   * The directory at `offset` has no bad entry among its counted ones, and its
   * last Orientation entry is entry k, holding v.
   */
  predicate LastOrientationAt(exifBlock: seq<Byte>, offset: nat, bigEndian: bool, k: nat, v: nat)
  {
    ReadUInt(exifBlock, 16, offset, bigEndian).Some? &&
    var count := ReadUInt(exifBlock, 16, offset, bigEndian).value;
    k < count &&
    (forall j :: 0 <= j < count ==> !BadEntry(exifBlock, offset, j, bigEndian)) &&
    OrientationEntryAt(exifBlock, offset, k, bigEndian, v) &&
    (forall j :: k < j < count ==> !OrientationTagAt(exifBlock, offset, j, bigEndian))
  }

  /**
   * The first IFD has no bad entry, no Orientation entry holding a readable
   * non-zero value, and its last Exif IFD pointer entry is entry k, holding x != 0.
   */
  predicate PointsOnward(exifBlock: seq<Byte>, bigEndian: bool, k: nat, x: nat)
  {
    FirstIfdOffset(exifBlock, bigEndian).Some? &&
    var offset := FirstIfdOffset(exifBlock, bigEndian).value;
    ReadUInt(exifBlock, 16, offset, bigEndian).Some? &&
    var count := ReadUInt(exifBlock, 16, offset, bigEndian).value;
    k < count && x != 0 &&
    (forall j :: 0 <= j < count ==> !BadEntry(exifBlock, offset, j, bigEndian)) &&
    (forall j :: 0 <= j < count ==> !UsableOrientationAt(exifBlock, offset, j, bigEndian)) &&
    PointerEntryAt(exifBlock, offset, k, bigEndian, x) &&
    (forall j :: k < j < count ==> !PointerTagAt(exifBlock, offset, j, bigEndian))
  }

  /** The directory at `offset` has a well-formed Orientation entry holding v among its counted entries. */
  predicate ListsOrientation(exifBlock: seq<Byte>, offset: Option<nat>, bigEndian: bool, v: nat)
  {
    offset.Some? &&
    ReadUInt(exifBlock, 16, offset.value, bigEndian).Some? &&
    exists k :: 0 <= k < ReadUInt(exifBlock, 16, offset.value, bigEndian).value &&
      OrientationEntryAt(exifBlock, offset.value, k, bigEndian, v)
  }

  lemma DirectorySound(exifBlock: seq<Byte>, offset: Option<nat>, bigEndian: bool)
    ensures var d := DirectoryAt(exifBlock, offset, bigEndian);
      d.orientation.Some? ==> ListsOrientation(exifBlock, offset, bigEndian, d.orientation.value)
  {
    if offset.Some? && ReadUInt(exifBlock, 16, offset.value, bigEndian).Some? {
      WalkSound(exifBlock, ReadUInt(exifBlock, 16, offset.value, bigEndian).value, offset.value, bigEndian, 0, NOTHING_FOUND);
    }
  }

  /**
   * `extractOrientation` returns 0 or the 16-bit value of a well-formed Orientation
   * entry, found either in the first IFD or, only when that gave no orientation,
   * in the one directory named by its Exif IFD pointer.
   */
  lemma OrientationComesFromAnEntry(exifBlock: seq<Byte>, bigEndian: bool)
    ensures var r := OrientationOf(exifBlock, bigEndian);
      r < 65536 &&
      (r != 0 ==>
        (SecondaryOffset(exifBlock, bigEndian).None? && ListsOrientation(exifBlock, FirstIfdOffset(exifBlock, bigEndian), bigEndian, r)) ||
        ListsOrientation(exifBlock, SecondaryOffset(exifBlock, bigEndian), bigEndian, r))
  {
    var r := OrientationOf(exifBlock, bigEndian);
    DirectorySound(exifBlock, FirstIfdOffset(exifBlock, bigEndian), bigEndian);
    DirectorySound(exifBlock, SecondaryOffset(exifBlock, bigEndian), bigEndian);
    if r != 0 {
      var d := if SecondaryOffset(exifBlock, bigEndian).Some? then SecondaryOffset(exifBlock, bigEndian) else FirstIfdOffset(exifBlock, bigEndian);
      assert ListsOrientation(exifBlock, d, bigEndian, r);
      var k :| 0 <= k < ReadUInt(exifBlock, 16, d.value, bigEndian).value && OrientationEntryAt(exifBlock, d.value, k, bigEndian, r);
    }
  }

  /**
   * A first IFD with no bad entry whose last Orientation entry holds a non-zero v
   * gives v, and the Exif IFD pointer is then not followed.
   */
  lemma PrimaryOrientationWins(exifBlock: seq<Byte>, bigEndian: bool, k: nat, v: nat)
    requires FirstIfdOffset(exifBlock, bigEndian).Some?
    requires LastOrientationAt(exifBlock, FirstIfdOffset(exifBlock, bigEndian).value, bigEndian, k, v) && v != 0
    ensures SecondaryOffset(exifBlock, bigEndian).None?
    ensures OrientationOf(exifBlock, bigEndian) == v
  {
    var offset := FirstIfdOffset(exifBlock, bigEndian).value;
    WalkFindsLastOrientation(exifBlock, ReadUInt(exifBlock, 16, offset, bigEndian).value, offset, bigEndian, 0, NOTHING_FOUND, k, v);
  }

  /**
   * There is no third pass: when the secondary directory holds no Orientation
   * entry the result is 0, whatever Exif IFD pointer that directory carries.
   */
  lemma NoThirdPass(exifBlock: seq<Byte>, bigEndian: bool)
    requires SecondaryOffset(exifBlock, bigEndian).Some?
    requires var offset := SecondaryOffset(exifBlock, bigEndian).value;
      ReadUInt(exifBlock, 16, offset, bigEndian).Some? &&
      var count := ReadUInt(exifBlock, 16, offset, bigEndian).value;
      (forall j :: 0 <= j < count ==> !BadEntry(exifBlock, offset, j, bigEndian)) &&
      (forall j :: 0 <= j < count ==> !OrientationTagAt(exifBlock, offset, j, bigEndian))
    ensures OrientationOf(exifBlock, bigEndian) == 0
  {
    var offset := SecondaryOffset(exifBlock, bigEndian).value;
    WalkKeepsOrientation(exifBlock, ReadUInt(exifBlock, 16, offset, bigEndian).value, offset, bigEndian, 0, NOTHING_FOUND);
  }

  /**
   * A first IFD without a usable orientation whose last Exif IFD pointer holds
   * x != 0 sends the secondary pass to block offset x + 6.
   */
  lemma SecondaryOffsetFollowsPointer(exifBlock: seq<Byte>, bigEndian: bool, k: nat, x: nat)
    requires PointsOnward(exifBlock, bigEndian, k, x)
    ensures SecondaryOffset(exifBlock, bigEndian) == Some(x + EXIF_HEADER_BYTES)
  {
    var offset := FirstIfdOffset(exifBlock, bigEndian).value;
    var count := ReadUInt(exifBlock, 16, offset, bigEndian).value;
    WalkFindsLastPointer(exifBlock, count, offset, bigEndian, 0, NOTHING_FOUND, k, x);
    WalkFindsNoOrientation(exifBlock, count, offset, bigEndian, 0, NOTHING_FOUND);
  }

  /**
   * The secondary pass is used: when the first IFD points onward to x and the
   * directory at x + 6 has no bad entry and a last Orientation entry holding a
   * non-zero v, `extractOrientation` returns v.
   */
  lemma SecondaryOrientationUsed(exifBlock: seq<Byte>, bigEndian: bool, k: nat, x: nat, k2: nat, v: nat)
    requires PointsOnward(exifBlock, bigEndian, k, x)
    requires LastOrientationAt(exifBlock, x + EXIF_HEADER_BYTES, bigEndian, k2, v) && v != 0
    ensures OrientationOf(exifBlock, bigEndian) == v
  {
    SecondaryOffsetFollowsPointer(exifBlock, bigEndian, k, x);
    var offset := x + EXIF_HEADER_BYTES;
    WalkFindsLastOrientation(exifBlock, ReadUInt(exifBlock, 16, offset, bigEndian).value, offset, bigEndian, 0, NOTHING_FOUND, k2, v);
  }

  /** A big-endian Orientation entry of format 3, count 1 and value 6 yields 6. */
  lemma OrientationEntryExample()
    ensures VisitEntry([0x01, 0x12, 0x00, 0x03, 0x00, 0x00, 0x00, 0x01, 0x00, 0x06, 0x00, 0x00], 0, true, NOTHING_FOUND)
         == Continue(DirectoryScan(Some(6), None))
  {
  }

  /** The same little-endian entry (tag bytes 12 01) yields 6 too. */
  lemma LittleEndianOrientationEntryExample()
    ensures VisitEntry([0x12, 0x01, 0x03, 0x00, 0x01, 0x00, 0x00, 0x00, 0x06, 0x00, 0x00, 0x00], 0, false, NOTHING_FOUND)
         == Continue(DirectoryScan(Some(6), None))
  {
  }

  /** An Orientation entry of format 2 (ASCII) voids the walk. */
  lemma AsciiOrientationEntryExample()
    ensures VisitEntry([0x01, 0x12, 0x00, 0x02, 0x00, 0x00, 0x00, 0x01, 0x00, 0x06, 0x00, 0x00], 0, true, NOTHING_FOUND)
         == Abandon
  {
  }

  // ---------------------------------------------------------------------------
  // The APP1 segment

  /** The EXIF block of an APP1 segment `input` of declared length `index`: `input.slice(2, index)`. */
  function ExifBlockOf(input: seq<Byte>, index: nat): (exifBlock: seq<Byte>)
  {
    Slice(input, APP1_DATA_SIZE_BYTES, index)
  }

  /** What `validateExifBlock` returns: None unless the block carries a TIFF byte-order mark. */
  function ExifBlockOrientation(input: seq<Byte>, index: nat): (r: Option<nat>)
    ensures r.Some? <==> ByteOrderOf(ExifBlockOf(input, index)).Some?
    ensures var b := ExifBlockOf(input, index);
      |b| >= 8 && b[6] == 0x4D && b[7] == 0x4D ==> r == Some(OrientationOf(b, true))
    ensures var b := ExifBlockOf(input, index);
      |b| >= 8 && b[6] == 0x49 && b[7] == 0x49 ==> r == Some(OrientationOf(b, false))
  {
    match ByteOrderOf(ExifBlockOf(input, index))
    case None => None
    case Some(bigEndian) => Some(OrientationOf(ExifBlockOf(input, index), bigEndian))
  }

  /** `validateExifBlock`: skip the segment's size field, check the byte order, extract the orientation. */
  method ValidateExifBlock(input: seq<Byte>, index: nat) returns (orientation: Option<nat>)
    ensures orientation == ExifBlockOrientation(input, index)
  {
    var exifBlock := Slice(input, APP1_DATA_SIZE_BYTES, index);
    var isBigEndian := Matches(exifBlock, EXIF_HEADER_BYTES, BIG_ENDIAN_BYTE_ALIGN);
    var isLittleEndian := Matches(exifBlock, EXIF_HEADER_BYTES, LITTLE_ENDIAN_BYTE_ALIGN);
    if isBigEndian || isLittleEndian {
      var o := ExtractOrientation(exifBlock, isBigEndian);
      orientation := Some(o);
    } else {
      orientation := None;
    }
  }
}
