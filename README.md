# JPEG header decoder (image-size, `lib/types/jpg.ts`)

A Dafny model of the JPEG decoder of the `image-size` library. The decoder reads
a byte window holding the first bytes of a JPEG file and reports its width,
height and EXIF orientation. It has four parts:

- `JPG.validate` checks for the Start-Of-Image marker `FF D8`.
- `JPG.calculate` walks the marker segments of ITU-T T.81 (ISO/IEC 10918-1),
  Annex B.1. It takes height and width from every SOF0, SOF1 and SOF2 frame
  header (Annex B.2.2). It stops at Start-Of-Scan (`FF DA`). It hands segments
  that carry "Exif" to the EXIF code. It throws three errors: no SOI marker,
  corrupted marker table, and a segment that exceeds the buffer.
- `validateExifBlock` reads the TIFF byte-order mark ("MM" or "II", TIFF 6.0
  section 2).
- `extractOrientation` and `extractOrientationFromOffset` walk the 12-byte
  entries of an Image File Directory. They look for the Orientation tag (274)
  and the Exif IFD pointer (34665) of Exif 2.3 section 4.6. They make at most
  one pass through the secondary directory.

Files:

- `wrappers.dfy`: `Option` and `Result`.
- `bytes.dfy` (module `Bytes`): the byte operations the decoder relies on.
  `readUInt` and `readUInt16BE` are imported from its `utils` module, and so is
  `toHexString`, whose `toHexString(...) === '...'` tests become byte-range
  comparison. `Uint8Array.slice`, with its clamping, is the built-in
  typed-array method.
- `exif.dfy` (module `Exif`): the byte-order check, the directory walk and the
  orientation extraction.
- `jpg.dfy` (module `Jpg`): `validate`, `isEXIF`, `extractSize` and the
  marker scanner.

The window is a `seq<Byte>`. The JavaScript's repeated `input = input.slice(n)` is a
cursor `pos` into it: the JavaScript's `input` is `w[pos..]`. The code that loops
becomes a method with a loop:
- `Jpg.Calculate` has the `while` loop;
- `Exif.ExtractOrientationFromOffset` has the counted `for` loop;
- `Exif.ExtractOrientation` makes the secondary pass;
- `Exif.ValidateExifBlock` calls `Exif.ExtractOrientation`.

Each method is proved equal to a specification function:
- `Jpg.CalculateOf`, built from one loop iteration `Jpg.ScanStep` iterated by
  `Jpg.ScanFrom`;
- `Exif.Walk`;
- `Exif.OrientationOf`;
- `Exif.ExifBlockOrientation`.

The properties are lemmas about those functions.

A read that runs past the end of its window gives `undefined` in JavaScript, and
the arithmetic on it gives NaN. Here such a read is `None`. The model follows
what the code then does with the NaN:
- a comparison with NaN is false, so a NaN segment length never triggers the
  overrun error;
- `slice(NaN)` is `slice(0)`, so the cursor does not move;
- `n < NaN` is false, so a NaN entry count makes the directory loop run zero
  times;
- NaN is falsy, so a NaN orientation counts as not found.

Where the code behaves differently from what a reader of the JPEG and Exif formats might expect, the model follows the code:
- Every frame header overwrites width and height, instead of the first one
  winning (`Jpg.FrameHeaderOverwrites`).
- An Orientation entry whose format is not 3 or whose count is not 1 aborts the
  whole directory walk with nothing found. It is not skipped
  (`Exif.WalkAbandons`).
- A segment length field cut off by the end of the window throws no overrun
  error: the cursor moves only past the marker (`Jpg.StepAdvance`). The scan
  then ends quietly if no byte, or a single FF byte, is left; a single other
  byte throws "marker table corrupted" on the next iteration
  (`Jpg.StepMarkerSync`).
- An orientation is whatever 16-bit value the entry holds. It is not limited
  to 0..8 (`Exif.OrientationComesFromAnEntry`).

## Model

| member | source | states |
|---|---|---|
| `Bytes.ReadUInt` | lib/types/jpg.ts:54 | a read gives a value exactly when its bits/8 bytes lie inside the window, and the value is below 2^bits |
| `Bytes.ReadUIntComposes` | lib/types/jpg.ts:54-72 | a 16- or 32-bit read is the big-endian (most significant byte first) or little-endian (least significant first) value of exactly the bits/8 bytes at the offset |
| `Bytes.LittleEndianIsReversedBigEndian` | lib/types/jpg.ts:54 | a little-endian read equals the big-endian read of the reversed bytes |
| `Bytes.BigEndianRoundTrip` | lib/types/jpg.ts:162 | reading back the n-byte big-endian encoding of a value below 256^n gives the value |
| `Bytes.ReadUIntRoundTrip` | lib/types/jpg.ts:82 | a big-endian 16- or 32-bit read of the encoding of any value that fits gives that value back |
| `Bytes.ReadUInt16BE` | lib/types/jpg.ts:162 | the segment length is the big-endian 16-bit value at the cursor, or none when fewer than two bytes remain |
| `Bytes.Matches` | lib/types/jpg.ts:125 | a hex comparison holds exactly when every byte of the constant is present at the given position |
| `Bytes.Slice` | lib/types/jpg.ts:106 | `slice` is the exact subrange when its bounds are in range, is empty when the start is past the end or the end before the start, and runs to the end when the end is past it |
| `Jpg.Validate` | lib/types/jpg.ts:125 | `validate` holds exactly when the window has at least two bytes and they are FF D8 |
| `Jpg.IsExif` | lib/types/jpg.ts:22-24 | a segment is EXIF exactly when bytes 2..5 after its marker are "Exif" |
| `Jpg.ExtractSize` | lib/types/jpg.ts:26-31 | height is the big-endian value at `index` and width the one at `index + 2`; each is present exactly when its two bytes are in the window |
| `Jpg.FrameSize` | lib/types/jpg.ts:148-153 | a frame marker sets height from offset 5 and width from offset 7 of the marker; any other marker leaves the size alone; the orientation is never touched |
| `Jpg.OrientationAfter` | lib/types/jpg.ts:164-166 | a segment carrying "Exif" replaces the orientation with what its EXIF block gives, even none; any other segment leaves it alone |
| `Jpg.SegmentStep` | lib/types/jpg.ts:159-181 | after the marker, the only error is the overrun; the cursor never moves backwards or past the window; the size found is kept and only the orientation is updated |
| `Jpg.ScanStep` | lib/types/jpg.ts:136-182 | each iteration that does not end the scan moves the cursor strictly forward inside the window, so the loop terminates |
| `Jpg.Calculate` | lib/types/jpg.ts:127-189 | the loop computes exactly the specified scan, and throws "no SOI marker" exactly when `validate` is false |
| `Jpg.ScanNeverLacksSoi` | lib/types/jpg.ts:136-188 | the marker loop never throws the "no SOI marker" error |
| `Jpg.NoSoiExactlyWhenInvalid` | lib/types/jpg.ts:128-130 | `calculate` throws "no SOI marker" exactly when the window does not begin FF D8 |
| `Jpg.StepMarkerSync` | lib/types/jpg.ts:137-142 | an iteration throws "marker table corrupted" exactly when the byte at the cursor is not FF |
| `Jpg.StepFrameHeader` | lib/types/jpg.ts:148-153 | after a frame header, whatever the iteration goes on to do, height is the value at marker offset 5 and width the one at offset 7 |
| `Jpg.StepStopsAtScan` | lib/types/jpg.ts:155-157 | `FF DA` ends the scan with what was found before it |
| `Jpg.StepAdvance` | lib/types/jpg.ts:159-181 | a continuing iteration moves the cursor by exactly 2 + the declared length, or only past the marker when the length field is cut off; it keeps the size unless the marker is a frame marker |
| `Jpg.StepOverrun` | lib/types/jpg.ts:168-178 | a declared length beyond the rest of the window gives the short-circuit return when the size and EXIF hand-off have made the result complete, and otherwise throws "exceeded buffer limits" |
| `Jpg.StepShortCircuit` | lib/types/jpg.ts:159-174 | after a marker other than `FF DA`, once width, height and orientation are all known the iteration returns them, whatever the declared length |
| `Jpg.StepFits` | lib/types/jpg.ts:159-181 | a declared length that fits the rest of the window, equal to it included, moves the cursor by exactly 2 + that length while the result is incomplete |
| `Jpg.StepThrowsOverrun` | lib/types/jpg.ts:168-178 | an iteration throws "exceeded buffer limits" if and only if the declared length is beyond the rest of the window and the result is incomplete at the short-circuit test |
| `Jpg.ScanFromReached` | lib/types/jpg.ts:136-182 | once the scan reaches a marker position, its result is the scan from that position |
| `Jpg.ReachesStep` | lib/types/jpg.ts:181 | the scan reaches every position the loop moves its cursor to |
| `Jpg.CorruptMarkerTable` | lib/types/jpg.ts:137-142 | whenever the scan reaches a marker position holding a byte other than FF, `calculate` throws "marker table corrupted" |
| `Jpg.StopsAtStartOfScan` | lib/types/jpg.ts:184-188 | whenever the scan reaches `FF DA`, `calculate` returns exactly what was found before it and reads no further |
| `Jpg.OverrunFails` | lib/types/jpg.ts:168-178 | whenever the scan reaches a segment longer than the rest of the window, `calculate` returns the complete result if the short-circuit fires there, and otherwise throws "exceeded buffer limits" |
| `Jpg.ShortCircuitReturns` | lib/types/jpg.ts:168-174 | whenever the scan reaches a marker other than `FF DA` after which the result is complete, `calculate` returns exactly that result |
| `Jpg.FittingSegmentAdvances` | lib/types/jpg.ts:176-181 | after a segment that fits, with the result incomplete, the scan goes on at the marker 2 + the declared length further |
| `Jpg.OverrunSegment` | lib/types/jpg.ts:176-178 | a scan that throws "exceeded buffer limits" reaches a marker where the overrun happens |
| `Jpg.OverrunExactly` | lib/types/jpg.ts:168-178 | `calculate` throws "exceeded buffer limits" if and only if the scan reaches a segment longer than the rest of the window with the result incomplete |
| `Jpg.FrameHeaderOverwrites` | lib/types/jpg.ts:148-153 | each frame header the scan passes overwrites width and height, whatever was found before |
| `Jpg.StepReports` | lib/types/jpg.ts:144-166 | one iteration reports width and height as before or both from a frame header at the cursor, and the orientation as before or from an EXIF segment right after the marker |
| `Jpg.ScanSound` | lib/types/jpg.ts:133-188 | every width the scan reports comes with the height of the same frame header, both read from it, and that header sits at a marker position the scan arrives at; every orientation comes from an EXIF segment just past a marker the scan arrives at (unless found before the scan started) |
| `Jpg.SizeFromFrameHeader` | lib/types/jpg.ts:184-188 | a width that `calculate` returns, and its height, were read from a frame header at a marker position the scan arrives at, never from bytes inside a segment's payload |
| `Jpg.ScanKeepsSize` | lib/types/jpg.ts:144-153 | a scan that arrives at no frame marker keeps the width and height it started with |
| `Jpg.ScanFromFrameHeader` | lib/types/jpg.ts:144-188 | from a frame header followed by no other frame marker the scan reports that header's width and height |
| `Jpg.LastFrameHeaderWins` | lib/types/jpg.ts:148-153 | when the scan arrives at a frame header, arrives at no frame marker after it, and `calculate` succeeds, the width and height returned are those of that header (offsets 7 and 5) |
| `Jpg.FrameThenScan` | lib/types/jpg.ts:127-188 | SOI, one frame-header segment without "Exif", then `FF DA` gives exactly that header's width and height and no orientation |
| `Jpg.BaselineExample` | lib/types/jpg.ts:127-188 | a window opening `FF D8 FF C0 00 11 08 01 00 02 00` with `FF DA` at offset 21 gives width 512, height 256 and no orientation |
| `Exif.ByteOrderOf` | lib/types/jpg.ts:109-117 | the block is big-endian exactly when bytes 6 and 7 are "MM", and little-endian exactly when they are "II" |
| `Exif.EntryAt` | lib/types/jpg.ts:42-53 | the sliced entry holds the bytes of the block from `offset + 2 + 12n` on: 12 of them, or as many as remain, or none when the entry starts past the end |
| `Exif.EntryFieldRead` | lib/types/jpg.ts:53-72 | a field read within the sliced entry's 12 bytes equals the same read taken from the block at the entry's start plus the field offset, including when the entry is cut off by the end of the block |
| `Exif.SlicedEntryFields` | lib/types/jpg.ts:53-72 | the tag, format, count and value fields read from the sliced entry are those of the entry in place in the block |
| `Exif.VisitEntry` | lib/types/jpg.ts:54-73 | an entry aborts the walk exactly when it has tag 274 with a format other than 3 or a count other than 1; a good tag 274 records its 16-bit value at offset 8; tag 34665 records its 32-bit value at offset 8; any other tag changes nothing |
| `Exif.ExtractOrientationFromOffset` | lib/types/jpg.ts:33-77 | the counted loop computes exactly the specified directory walk |
| `Exif.WalkSound` | lib/types/jpg.ts:37-76 | an orientation the walk returns is the value of a well-formed Orientation entry of the directory, and an Exif IFD offset is the value of a pointer entry |
| `Exif.WalkAbandons` | lib/types/jpg.ts:49-68 | an entry starting past the block, or a malformed Orientation entry, anywhere in the directory makes the walk return (none, none) |
| `Exif.WalkKeepsOrientation` | lib/types/jpg.ts:57-73 | entries that are neither bad nor Orientation entries leave the orientation found so far unchanged |
| `Exif.WalkFindsLastOrientation` | lib/types/jpg.ts:37-76 | in a directory with no bad entry, the walk returns the value of the last Orientation entry |
| `Exif.WalkKeepsPointer` | lib/types/jpg.ts:57-73 | entries that are neither bad nor Exif IFD pointers leave the pointer found so far unchanged |
| `Exif.WalkFindsLastPointer` | lib/types/jpg.ts:71-72 | in a directory with no bad entry, the walk returns the 32-bit value of the last Exif IFD pointer entry |
| `Exif.WalkFindsNoOrientation` | lib/types/jpg.ts:57-70 | a walk whose Orientation entries all hold 0 or an unreadable value reports no usable orientation |
| `Exif.DirectorySound` | lib/types/jpg.ts:84-89 | an orientation found in a directory is listed by one of its counted entries |
| `Exif.FirstIfdOffset` | lib/types/jpg.ts:80-82 | the first directory offset is present exactly when the 32-bit pointer at block offset 10 is inside the block, and it equals that pointer plus 6 |
| `Exif.SecondaryOffset` | lib/types/jpg.ts:91-92 | the secondary pass happens exactly when the first IFD gave no usable orientation and a non-zero Exif IFD pointer, and it walks the directory at that pointer plus 6 |
| `Exif.WalkDirectory` | lib/types/jpg.ts:84-89 | reading the entry count at the offset and running the entry loop computes exactly the specified walk of that directory |
| `Exif.ExtractOrientation` | lib/types/jpg.ts:79-102 | the method computes exactly the specified primary walk plus at most one secondary walk |
| `Exif.OrientationComesFromAnEntry` | lib/types/jpg.ts:82-101 | the result is below 65536, and when not 0 it is the value of a well-formed Orientation entry of the first IFD, or, only when that gave none, of the directory at the Exif IFD pointer + 6 |
| `Exif.PrimaryOrientationWins` | lib/types/jpg.ts:89-91 | a first IFD with no bad entry whose last Orientation entry holds a non-zero v gives v, and then the pointer is not followed |
| `Exif.SecondaryOffsetFollowsPointer` | lib/types/jpg.ts:89-93 | a first IFD with no bad entry, no usable orientation and a last pointer entry holding x != 0 sends the secondary pass to block offset x + 6 |
| `Exif.SecondaryOrientationUsed` | lib/types/jpg.ts:91-101 | when the first IFD points onward to x and the directory at x + 6 has no bad entry and a last Orientation entry holding v != 0, `extractOrientation` returns v |
| `Exif.NoThirdPass` | lib/types/jpg.ts:91-101 | when the secondary directory holds no Orientation entry, the result is 0 whatever pointer that directory carries |
| `Exif.OrientationEntryExample` | lib/types/jpg.ts:57-70 | a big-endian entry with tag 274, format 3, count 1 and value 6 records orientation 6 |
| `Exif.LittleEndianOrientationEntryExample` | lib/types/jpg.ts:54-70 | the same entry in little-endian byte order also records orientation 6 |
| `Exif.AsciiOrientationEntryExample` | lib/types/jpg.ts:59-61 | the same entry with format 2 (ASCII) aborts the walk |
| `Exif.ExifBlockOrientation` | lib/types/jpg.ts:104-122 | `validateExifBlock` gives a result exactly when the block after the 2-byte size field carries "MM" or "II" at offset 6; with "MM" it is the big-endian orientation of the block and with "II" the little-endian one |
| `Exif.ValidateExifBlock` | lib/types/jpg.ts:104-122 | the method computes exactly the specified orientation of the segment's EXIF block |

## Left out

- Reading the file and printing the result (`test.ts`): this is I/O with
  nothing to prove.
- The dispatcher that picks this decoder, and the 4096-byte loading limit of
  the surrounding loader (lib/types/jpg.ts:4-6): both are outside this file. The
  window is any finite byte sequence.
- `utils` and `interface` are not part of this model. `readUInt`,
  `readUInt16BE` and `toHexString` get the obvious definitions: unsigned
  composition in the given byte order, and comparison of a byte range with a
  constant.
- `toHexString` as string processing: its comparisons are modelled as direct
  byte comparisons.
- Jpg.ExtractSize: a size read that runs past the window (JavaScript NaN) is
  stored as missing. In jpg.ts NaN counts as defined for the short-circuit
  test at lib/types/jpg.ts:168, so on a window cut off inside a frame header the
  code can return early with NaN sizes where the model goes on scanning.
- JavaScript numbers are modelled as unbounded naturals. No sum here exceeds
  2^53, so nothing is lost.
