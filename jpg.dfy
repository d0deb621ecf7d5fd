/**
 * The JPEG marker scanner (`JPG.validate` and `JPG.calculate`): after the
 * Start-Of-Image marker it walks the marker segments of ITU-T T.81 Annex B.1,
 * takes height and width from every SOF0, SOF1 and SOF2 frame header, hands
 * every segment that carries "Exif" to the EXIF code, and stops at Start-Of-Scan.
 *
 * The window is a `seq<Byte>` and the JavaScript's repeated `input = input.slice(n)`
 * is a cursor `pos` into it: the JavaScript's `input` is `w[pos..]`.
 */
module Jpg {
  import opened Wrappers
  import opened Bytes
  import opened Exif

  const SOI: seq<Byte> := [0xFF, 0xD8]
  const MARKER_SYNC: Byte := 0xFF
  const SOF0: Byte := 0xC0  // baseline
  const SOF1: Byte := 0xC1  // extended sequential (called "baseline optimized" in jpg.ts)
  const SOF2: Byte := 0xC2  // progressive
  const SOS: Byte := 0xDA   // start of scan: entropy-coded data follows
  const EXIF_MARKER: seq<Byte> := [0x45, 0x78, 0x69, 0x66]  // "Exif"

  /** The three errors `calculate` throws. */
  datatype JpgError = NoSoiMarker | MarkerTableCorrupted | ExceededBufferLimits

  /** What `extractSize` returns. */
  datatype Size = Size(height: Option<nat>, width: Option<nat>)

  /** What `calculate` returns: each field may be missing (`undefined`). */
  datatype ImageSize = ImageSize(width: Option<nat>, height: Option<nat>, orientation: Option<nat>)

  const NOTHING_YET := ImageSize(None, None, None)

  predicate Complete(found: ImageSize)
  {
    found.width.Some? && found.height.Some? && found.orientation.Some?
  }

  // ---------------------------------------------------------------------------
  // The pure helpers

  /** `JPG.validate`: the window opens with the Start-Of-Image marker FF D8. */
  predicate Validate(input: seq<Byte>)
    ensures Validate(input) <==> |input| >= 2 && input[0] == 0xFF && input[1] == 0xD8
  {
    Matches(input, 0, SOI)
  }

  /** `isEXIF`: the bytes after a segment's 2-byte length are "Exif". */
  predicate IsExif(input: seq<Byte>)
    ensures IsExif(input) <==>
      |input| >= 6 && input[2] == 0x45 && input[3] == 0x78 && input[4] == 0x69 && input[5] == 0x66
  {
    Matches(input, 2, EXIF_MARKER)
  }

  /** `extractSize`: height then width, big-endian 16-bit values at `index` and `index + 2`. */
  function ExtractSize(input: seq<Byte>, index: nat): (s: Size)
    ensures s.height.Some? <==> index + 2 <= |input|
    ensures s.width.Some? <==> index + 4 <= |input|
    ensures s.height.Some? ==> s.height.value == input[index] as int * 256 + input[index + 1]
    ensures s.width.Some? ==> s.width.value == input[index + 2] as int * 256 + input[index + 3]
  {
    Size(ReadUInt16BE(input, index), ReadUInt16BE(input, index + 2))
  }

  /** The marker type is one of the frame headers SOF0, SOF1, SOF2. */
  predicate IsFrameMarker(next: Option<Byte>)
  {
    next == Some(SOF0) || next == Some(SOF1) || next == Some(SOF2)
  }

  // ---------------------------------------------------------------------------
  // One iteration of the scanning loop, and the loop

  datatype StepOutcome = Advance(next: nat, found: ImageSize) | Finish(result: Result<ImageSize, JpgError>)

  /** What a step has found, unless it threw. */
  function FoundBy(s: StepOutcome): (f: Option<ImageSize>)
  {
    match s
    case Advance(_, found) => Some(found)
    case Finish(Success(found)) => Some(found)
    case Finish(Failure(_)) => None
  }

  /** Frame header `FF C0`, `FF C1` or `FF C2` at `pos`, with its height and width inside the window. */
  predicate FrameHeaderAt(w: seq<Byte>, pos: nat)
  {
    pos + 9 <= |w| && w[pos] == MARKER_SYNC && IsFrameMarker(Some(w[pos + 1]))
  }

  /** The update a frame marker at `pos` makes: height and width from offsets 5 and 7. */
  function FrameSize(w: seq<Byte>, pos: nat, found: ImageSize): (sized: ImageSize)
    requires pos < |w| && w[pos] == MARKER_SYNC
    ensures sized.orientation == found.orientation
    ensures !IsFrameMarker(ByteAt(w, pos + 1)) ==> sized == found
    ensures FrameHeaderAt(w, pos) ==>
      sized.width == Some(w[pos + 7] as int * 256 + w[pos + 8]) &&
      sized.height == Some(w[pos + 5] as int * 256 + w[pos + 6])
    ensures sized.width.Some? ==> (sized.width == found.width && sized.height == found.height) || FrameHeaderAt(w, pos)
  {
    if IsFrameMarker(ByteAt(w, pos + 1))
    then var size := ExtractSize(w[pos..], 5); found.(width := size.width, height := size.height)
    else found
  }

  /** The orientation after the segment `input`: what its EXIF block gives, if it carries "Exif". */
  function OrientationAfter(input: seq<Byte>, previous: Option<nat>): (o: Option<nat>)
    ensures !IsExif(input) ==> o == previous
    ensures IsExif(input) ==> o == ExifBlockOrientation(input, input[0] as int * 256 + input[1])
  {
    if IsExif(input) then ExifBlockOrientation(input, ReadUInt16BE(input, 0).value) else previous
  }

  /**
   * The rest of an iteration once the cursor `q` is past the marker: the EXIF
   * hand-off, the short-circuit return, then the overrun check and the move past
   * the segment. A length field that runs past the window (NaN in JavaScript)
   * neither triggers the overrun error nor moves the cursor.
   */
  function SegmentStep(w: seq<Byte>, q: nat, sized: ImageSize): (s: StepOutcome)
    requires q <= |w|
    ensures s.Advance? ==> q <= s.next <= |w|
    ensures s.Finish? && s.result.Failure? ==> s.result.error == ExceededBufferLimits
    ensures FoundBy(s).Some? ==> FoundBy(s).value == sized.(orientation := OrientationAfter(w[q..], sized.orientation))
  {
    var i := ReadUInt16BE(w[q..], 0);
    var withExif := sized.(orientation := OrientationAfter(w[q..], sized.orientation));
    if Complete(withExif) then Finish(Success(withExif))
    else if i.Some? && i.value > |w| - q then Finish(Failure(ExceededBufferLimits))
    else Advance(q + (if i.Some? then i.value else 0), withExif)
  }

  /** One iteration of the `while (input.length)` loop with the cursor at `pos`, having found `found` so far. */
  function ScanStep(w: seq<Byte>, pos: nat, found: ImageSize): (s: StepOutcome)
    requires pos < |w|
    ensures s.Advance? ==> pos < s.next <= |w|
  {
    if w[pos] != MARKER_SYNC then Finish(Failure(MarkerTableCorrupted))
    else if ByteAt(w, pos + 1) == Some(SOS) then Finish(Success(FrameSize(w, pos, found)))
    else SegmentStep(w, Min(pos + 2, |w|), FrameSize(w, pos, found))
  }

  /**
   * What an iteration at a marker other than `FF DA` has found when it reaches
   * the short-circuit test: the frame size, then the EXIF hand-off.
   */
  function BeforeShortCircuit(w: seq<Byte>, pos: nat, found: ImageSize): (f: ImageSize)
    requires pos < |w| && w[pos] == MARKER_SYNC
  {
    var sized := FrameSize(w, pos, found);
    sized.(orientation := OrientationAfter(w[Min(pos + 2, |w|)..], sized.orientation))
  }

  /** The scan from the marker at `pos` to the end of the window. */
  function ScanFrom(w: seq<Byte>, pos: nat, found: ImageSize): (r: Result<ImageSize, JpgError>)
    requires pos <= |w|
    decreases |w| - pos
  {
    if pos == |w| then Success(found)
    else match ScanStep(w, pos, found)
      case Finish(r) => r
      case Advance(next, found') => ScanFrom(w, next, found')
  }

  /** What `JPG.calculate` returns or throws. */
  function CalculateOf(w: seq<Byte>): (r: Result<ImageSize, JpgError>)
  {
    if !Validate(w) then Failure(NoSoiMarker) else ScanFrom(w, 2, NOTHING_YET)
  }

  /** `JPG.calculate`. */
  method Calculate(w: seq<Byte>) returns (r: Result<ImageSize, JpgError>)
    ensures r == CalculateOf(w)
    ensures r == Failure(NoSoiMarker) <==> !Validate(w)
  {
    if !Validate(w) {
      return Failure(NoSoiMarker);
    }
    ScanNeverLacksSoi(w, 2, NOTHING_YET);
    var pos := 2;
    var orientation: Option<nat> := None;
    var width: Option<nat> := None;
    var height: Option<nat> := None;
    while pos < |w|
      invariant 2 <= pos <= |w|
      invariant ScanFrom(w, pos, ImageSize(width, height, orientation)) == CalculateOf(w)
      decreases |w| - pos
    {
      ghost var step := ScanStep(w, pos, ImageSize(width, height, orientation));
      if w[pos] != MARKER_SYNC {
        return Failure(MarkerTableCorrupted);
      }
      var next := ByteAt(w, pos + 1);
      if IsFrameMarker(next) {
        var size := ExtractSize(w[pos..], 5);
        width := size.width;
        height := size.height;
      }
      if next == Some(SOS) {
        break;
      }
      pos := Min(pos + 2, |w|);
      var input := w[pos..];
      var i := ReadUInt16BE(input, 0);
      if IsExif(input) {
        orientation := ValidateExifBlock(input, i.value);
      }
      if width.Some? && height.Some? && orientation.Some? {
        return Success(ImageSize(width, height, orientation));
      }
      if i.Some? && i.value > |input| {
        return Failure(ExceededBufferLimits);
      }
      if i.Some? {
        pos := pos + i.value;
      }
      assert step == Advance(pos, ImageSize(width, height, orientation));
    }
    return Success(ImageSize(width, height, orientation));
  }

  /** The scan never throws the Start-Of-Image error: only `validate` does. */
  lemma {:induction false} ScanNeverLacksSoi(w: seq<Byte>, pos: nat, found: ImageSize)
    requires pos <= |w|
    ensures ScanFrom(w, pos, found) != Failure(NoSoiMarker)
    decreases |w| - pos
  {
    if pos < |w| {
      match ScanStep(w, pos, found)
      case Finish(r) =>
      case Advance(next, found') => ScanNeverLacksSoi(w, next, found');
    }
  }

  /** `calculate` throws the Start-Of-Image error exactly when `validate` is false. */
  lemma NoSoiExactlyWhenInvalid(w: seq<Byte>)
    ensures CalculateOf(w) == Failure(NoSoiMarker) <==> !(|w| >= 2 && w[0] == 0xFF && w[1] == 0xD8)
  {
    if Validate(w) {
      ScanNeverLacksSoi(w, 2, NOTHING_YET);
    }
  }

  // ---------------------------------------------------------------------------
  // One iteration

  /** A byte other than FF where a marker is expected throws "marker table corrupted", and only that does. */
  lemma StepMarkerSync(w: seq<Byte>, pos: nat, found: ImageSize)
    requires pos < |w|
    ensures ScanStep(w, pos, found) == Finish(Failure(MarkerTableCorrupted)) <==> w[pos] != 0xFF
  {
  }

  /**
   * A frame header sets height to the big-endian value at offset 5 from the marker
   * and width to the one at offset 7, whatever was found before.
   */
  lemma StepFrameHeader(w: seq<Byte>, pos: nat, found: ImageSize)
    requires FrameHeaderAt(w, pos)
    ensures var s := ScanStep(w, pos, found);
      var width := Some(w[pos + 7] as int * 256 + w[pos + 8]);
      var height := Some(w[pos + 5] as int * 256 + w[pos + 6]);
      (s.Advance? ==> s.found.width == width && s.found.height == height) &&
      (s.Finish? && s.result.Success? ==> s.result.value.width == width && s.result.value.height == height)
  {
  }

  /** `FF DA` ends the scan with what was found before it. */
  lemma StepStopsAtScan(w: seq<Byte>, pos: nat, found: ImageSize)
    requires pos + 1 < |w| && w[pos] == 0xFF && w[pos + 1] == 0xDA
    ensures ScanStep(w, pos, found) == Finish(Success(found))
  {
  }

  /**
   * Past any other marker the cursor moves by 2 + the segment's declared length L
   * (which counts its own two bytes); if the window ends inside the length field
   * it moves only past the marker.
   */
  lemma StepAdvance(w: seq<Byte>, pos: nat, found: ImageSize)
    requires pos < |w| && ScanStep(w, pos, found).Advance?
    ensures var s := ScanStep(w, pos, found);
      w[pos] == 0xFF && ByteAt(w, pos + 1) != Some(0xDA) &&
      (pos + 4 <= |w| ==> s.next == pos + 2 + (w[pos + 2] as int * 256 + w[pos + 3])) &&
      (pos + 4 > |w| ==> s.next == Min(pos + 2, |w|)) &&
      (!IsFrameMarker(ByteAt(w, pos + 1)) ==> s.found.width == found.width && s.found.height == found.height)
  {
  }

  /**
   * A declared length beyond the rest of the window throws "exceeded buffer
   * limits", unless width, height and orientation are all known by then: the
   * short-circuit return comes first.
   */
  lemma StepOverrun(w: seq<Byte>, pos: nat, found: ImageSize)
    requires pos + 4 <= |w| && w[pos] == 0xFF && w[pos + 1] != 0xDA
    requires w[pos + 2] as int * 256 + w[pos + 3] > |w| - (pos + 2)
    ensures var f := BeforeShortCircuit(w, pos, found);
      ScanStep(w, pos, found) ==
        if Complete(f) then Finish(Success(f)) else Finish(Failure(ExceededBufferLimits))
  {
  }

  /**
   * The short-circuit return: once width, height and orientation are all known
   * after a marker other than `FF DA`, the iteration returns them, whatever the
   * declared length of the segment (even one beyond the window).
   */
  lemma StepShortCircuit(w: seq<Byte>, pos: nat, found: ImageSize)
    requires pos < |w| && w[pos] == 0xFF && ByteAt(w, pos + 1) != Some(0xDA)
    requires Complete(BeforeShortCircuit(w, pos, found))
    ensures ScanStep(w, pos, found) == Finish(Success(BeforeShortCircuit(w, pos, found)))
  {
  }

  /**
   * A segment whose declared length L fits the rest of the window (L equal to
   * the rest included) moves the cursor by exactly 2 + L when the result is not
   * yet complete.
   */
  lemma StepFits(w: seq<Byte>, pos: nat, found: ImageSize)
    requires pos + 4 <= |w| && w[pos] == 0xFF && w[pos + 1] != 0xDA
    requires w[pos + 2] as int * 256 + w[pos + 3] <= |w| - (pos + 2)
    requires !Complete(BeforeShortCircuit(w, pos, found))
    ensures ScanStep(w, pos, found) ==
      Advance(pos + 2 + (w[pos + 2] as int * 256 + w[pos + 3]), BeforeShortCircuit(w, pos, found))
  {
  }

  /**
   * The step at `pos` meets a segment whose declared length is beyond the rest
   * of the window, with the result still incomplete at the short-circuit test.
   */
  predicate OverrunAt(w: seq<Byte>, pos: nat, found: ImageSize)
  {
    pos + 4 <= |w| && w[pos] == MARKER_SYNC && w[pos + 1] != SOS &&
    w[pos + 2] as int * 256 + w[pos + 3] > |w| - (pos + 2) &&
    !Complete(BeforeShortCircuit(w, pos, found))
  }

  /** An iteration throws "exceeded buffer limits" exactly when it meets an overrun. */
  lemma StepThrowsOverrun(w: seq<Byte>, pos: nat, found: ImageSize)
    requires pos < |w|
    ensures ScanStep(w, pos, found) == Finish(Failure(ExceededBufferLimits)) <==> OverrunAt(w, pos, found)
  {
  }

  // ---------------------------------------------------------------------------
  // The whole scan

  /** The scan that starts at `pos` with `found` arrives at the marker `q` having found `at`. */
  ghost predicate Reaches(w: seq<Byte>, pos: nat, found: ImageSize, q: nat, at: ImageSize)
    requires pos <= |w|
    decreases |w| - pos
  {
    (pos == q && found == at) ||
    (pos < |w| && ScanStep(w, pos, found).Advance? &&
     Reaches(w, ScanStep(w, pos, found).next, ScanStep(w, pos, found).found, q, at))
  }

  /** `calculate` on `w` arrives at the marker `q` having found `at`. */
  ghost predicate Visits(w: seq<Byte>, q: nat, at: ImageSize)
  {
    |w| >= 2 && Validate(w) && Reaches(w, 2, NOTHING_YET, q, at)
  }

  /** Where the scan arrives, the rest of it is the scan from there. */
  lemma {:induction false} ScanFromReached(w: seq<Byte>, pos: nat, found: ImageSize, q: nat, at: ImageSize)
    requires pos <= |w| && Reaches(w, pos, found, q, at)
    ensures q <= |w| && ScanFrom(w, pos, found) == ScanFrom(w, q, at)
    decreases |w| - pos
  {
    if !(pos == q && found == at) {
      var s := ScanStep(w, pos, found);
      ScanFromReached(w, s.next, s.found, q, at);
    }
  }

  /** The scan arrives at the position each step moves it to. */
  lemma {:induction false} ReachesStep(w: seq<Byte>, pos: nat, found: ImageSize, q: nat, at: ImageSize)
    requires pos <= |w| && Reaches(w, pos, found, q, at)
    requires q < |w| && ScanStep(w, q, at).Advance?
    ensures Reaches(w, pos, found, ScanStep(w, q, at).next, ScanStep(w, q, at).found)
    decreases |w| - pos
  {
    if !(pos == q && found == at) {
      var s := ScanStep(w, pos, found);
      ReachesStep(w, s.next, s.found, q, at);
    }
  }

  /** If the scan meets a byte other than FF where a marker belongs, `calculate` throws "marker table corrupted". */
  lemma CorruptMarkerTable(w: seq<Byte>, q: nat, at: ImageSize)
    requires Visits(w, q, at) && q < |w| && w[q] != 0xFF
    ensures CalculateOf(w) == Failure(MarkerTableCorrupted)
  {
    ScanFromReached(w, 2, NOTHING_YET, q, at);
  }

  /** If the scan meets `FF DA`, `calculate` returns exactly what was found before it, and reads no further. */
  lemma StopsAtStartOfScan(w: seq<Byte>, q: nat, at: ImageSize)
    requires Visits(w, q, at) && q + 1 < |w| && w[q] == 0xFF && w[q + 1] == 0xDA
    ensures CalculateOf(w) == Success(at)
  {
    ScanFromReached(w, 2, NOTHING_YET, q, at);
  }

  /**
   * If the scan meets a segment longer than the rest of the window, `calculate`
   * returns the complete result if the short-circuit fires there, and otherwise
   * throws "exceeded buffer limits".
   */
  lemma OverrunFails(w: seq<Byte>, q: nat, at: ImageSize)
    requires Visits(w, q, at) && q + 4 <= |w| && w[q] == 0xFF && w[q + 1] != 0xDA
    requires w[q + 2] as int * 256 + w[q + 3] > |w| - (q + 2)
    ensures var f := BeforeShortCircuit(w, q, at);
      CalculateOf(w) == if Complete(f) then Success(f) else Failure(ExceededBufferLimits)
  {
    ScanFromReached(w, 2, NOTHING_YET, q, at);
    StepOverrun(w, q, at);
  }

  /**
   * If the scan meets a marker other than `FF DA` after which width, height and
   * orientation are all known, `calculate` returns them there, before looking at
   * the segment's declared length.
   */
  lemma ShortCircuitReturns(w: seq<Byte>, q: nat, at: ImageSize)
    requires Visits(w, q, at) && q < |w| && w[q] == 0xFF && ByteAt(w, q + 1) != Some(0xDA)
    requires Complete(BeforeShortCircuit(w, q, at))
    ensures CalculateOf(w) == Success(BeforeShortCircuit(w, q, at))
  {
    ScanFromReached(w, 2, NOTHING_YET, q, at);
    StepShortCircuit(w, q, at);
  }

  /** After a segment that fits, with the result incomplete, the scan goes on at the marker 2 + L further. */
  lemma FittingSegmentAdvances(w: seq<Byte>, q: nat, at: ImageSize)
    requires Visits(w, q, at) && q + 4 <= |w| && w[q] == 0xFF && w[q + 1] != 0xDA
    requires w[q + 2] as int * 256 + w[q + 3] <= |w| - (q + 2)
    requires !Complete(BeforeShortCircuit(w, q, at))
    ensures Visits(w, q + 2 + (w[q + 2] as int * 256 + w[q + 3]), BeforeShortCircuit(w, q, at))
  {
    StepFits(w, q, at);
    VisitsAdvance(w, q, at, q + 2 + (w[q + 2] as int * 256 + w[q + 3]), BeforeShortCircuit(w, q, at));
  }

  /** The scan visits wherever a step from a visited marker advances to. */
  lemma VisitsAdvance(w: seq<Byte>, q: nat, at: ImageSize, next: nat, found: ImageSize)
    requires Visits(w, q, at) && q < |w| && ScanStep(w, q, at) == Advance(next, found)
    ensures Visits(w, next, found)
  {
    ReachesStep(w, 2, NOTHING_YET, q, at);
  }

  /** The marker at which a scan from `pos` that throws "exceeded buffer limits" meets the overrun. */
  lemma {:induction false} OverrunSegment(w: seq<Byte>, pos: nat, found: ImageSize) returns (q: nat, at: ImageSize)
    requires pos <= |w|
    ensures ScanFrom(w, pos, found) == Failure(ExceededBufferLimits) ==>
      Reaches(w, pos, found, q, at) && OverrunAt(w, q, at)
    decreases |w| - pos
  {
    q, at := pos, found;
    if pos < |w| {
      StepThrowsOverrun(w, pos, found);
      assert Reaches(w, pos, found, pos, found);
      match ScanStep(w, pos, found)
      case Finish(_) =>
      case Advance(next, found') =>
        if ScanFrom(w, next, found') == Failure(ExceededBufferLimits) {
          q, at := OverrunSegment(w, next, found');
          ReachesThroughStep(w, pos, found, q, at);
        }
    }
  }

  /** `calculate` throws "exceeded buffer limits" exactly when the scan meets an overrun. */
  lemma OverrunExactly(w: seq<Byte>)
    ensures CalculateOf(w) == Failure(ExceededBufferLimits) <==>
      exists q: nat, at: ImageSize :: Visits(w, q, at) && OverrunAt(w, q, at)
  {
    if CalculateOf(w) == Failure(ExceededBufferLimits) {
      var q, at := OverrunSegment(w, 2, NOTHING_YET);
      assert Visits(w, q, at) && OverrunAt(w, q, at);
    }
    if exists q: nat, at: ImageSize :: Visits(w, q, at) && OverrunAt(w, q, at) {
      var q: nat, at: ImageSize :| Visits(w, q, at) && OverrunAt(w, q, at);
      OverrunFails(w, q, at);
    }
  }

  /** Every frame header the scan passes overwrites width and height: there is no "first one wins". */
  lemma FrameHeaderOverwrites(w: seq<Byte>, q: nat, at: ImageSize)
    requires Visits(w, q, at) && FrameHeaderAt(w, q) && ScanStep(w, q, at).Advance?
    ensures var s := ScanStep(w, q, at);
      Visits(w, s.next, s.found) &&
      s.found.width == Some(w[q + 7] as int * 256 + w[q + 8]) &&
      s.found.height == Some(w[q + 5] as int * 256 + w[q + 6])
  {
    ReachesStep(w, 2, NOTHING_YET, q, at);
    StepFrameHeader(w, q, at);
  }

  /** The segment at `q` (after its marker) carries "Exif" and its EXIF block gives orientation o. */
  predicate ExifSegmentAt(w: seq<Byte>, q: nat, o: nat)
  {
    q + 6 <= |w| && IsExif(w[q..]) &&
    ExifBlockOrientation(w[q..], w[q] as int * 256 + w[q + 1]) == Some(o)
  }

  /**
   * What one step reports: width and height as before or both from a frame header
   * at `pos`, and an orientation as before or from an EXIF segment just past the marker.
   */
  lemma StepReports(w: seq<Byte>, pos: nat, found: ImageSize)
    requires pos < |w|
    ensures var f := FoundBy(ScanStep(w, pos, found));
      f.Some? ==>
        (f.value.width.Some? ==>
          (f.value.width == found.width && f.value.height == found.height) ||
          (FrameHeaderAt(w, pos) &&
           f.value.width == Some(w[pos + 7] as int * 256 + w[pos + 8]) &&
           f.value.height == Some(w[pos + 5] as int * 256 + w[pos + 6]))) &&
        (f.value.orientation.Some? ==>
          f.value.orientation == found.orientation ||
          ExifSegmentAt(w, Min(pos + 2, |w|), f.value.orientation.value))
  {
    if w[pos] == MARKER_SYNC {
      var sized := FrameSize(w, pos, found);
      var q := Min(pos + 2, |w|);
      if ByteAt(w, pos + 1) != Some(SOS) {
        var o := OrientationAfter(w[q..], sized.orientation);
        if o.Some? && o != found.orientation {
          assert ExifSegmentAt(w, q, o.value);
        }
      }
    }
  }

  /** A marker the scan arrives at from the next position is one it arrives at from here. */
  lemma ReachesThroughStep(w: seq<Byte>, pos: nat, found: ImageSize, q: nat, at: ImageSize)
    requires pos < |w| && ScanStep(w, pos, found).Advance?
    requires Reaches(w, ScanStep(w, pos, found).next, ScanStep(w, pos, found).found, q, at)
    ensures Reaches(w, pos, found, q, at)
  {
  }

  /** Width and height `size` are both read from the frame header at `q`. */
  predicate SizeReadAt(w: seq<Byte>, size: ImageSize, q: nat)
  {
    FrameHeaderAt(w, q) &&
    size.width == Some(w[q + 7] as int * 256 + w[q + 8]) &&
    size.height == Some(w[q + 5] as int * 256 + w[q + 6])
  }

  /**
   * The marker a size reported by the scan from `pos` was read at: a frame header
   * the scan arrives at, unless the size was found before `pos`.
   */
  lemma {:induction false} SizeHeader(w: seq<Byte>, pos: nat, found: ImageSize) returns (q: nat, at: ImageSize)
    requires pos <= |w|
    ensures var r := ScanFrom(w, pos, found);
      r.Success? && r.value.width.Some? && !(r.value.width == found.width && r.value.height == found.height) ==>
        Reaches(w, pos, found, q, at) && SizeReadAt(w, r.value, q)
    decreases |w| - pos
  {
    q, at := pos, found;
    if pos < |w| {
      StepReports(w, pos, found);
      assert Reaches(w, pos, found, pos, found);
      match ScanStep(w, pos, found)
      case Finish(_) =>
      case Advance(next, found') =>
        var r := ScanFrom(w, pos, found);
        assert r == ScanFrom(w, next, found');
        if r.Success? && r.value.width.Some? && !(r.value.width == found'.width && r.value.height == found'.height) {
          q, at := SizeHeader(w, next, found');
          ReachesThroughStep(w, pos, found, q, at);
        }
    }
  }

  /** The step at the marker `q`, having found `at`, reports orientation o where `at` had another. */
  predicate OrientationSetAt(w: seq<Byte>, q: nat, at: ImageSize, o: Option<nat>)
    requires q < |w|
  {
    FoundBy(ScanStep(w, q, at)).Some? && FoundBy(ScanStep(w, q, at)).value.orientation == o && o != at.orientation
  }

  /** A step that sets the orientation to o read it from an EXIF segment just past its marker. */
  lemma OrientationSetBySegment(w: seq<Byte>, q: nat, at: ImageSize, o: nat)
    requires q < |w| && OrientationSetAt(w, q, at, Some(o))
    ensures ExifSegmentAt(w, Min(q + 2, |w|), o)
  {
    StepReports(w, q, at);
  }

  /**
   * The marker whose step set an orientation reported by the scan from `pos`:
   * one the scan arrives at, unless the orientation was found before `pos`.
   */
  lemma {:induction false} OrientationSegment(w: seq<Byte>, pos: nat, found: ImageSize) returns (q: nat, at: ImageSize)
    requires pos <= |w|
    ensures var r := ScanFrom(w, pos, found);
      r.Success? && r.value.orientation != found.orientation ==>
        Reaches(w, pos, found, q, at) && q < |w| && OrientationSetAt(w, q, at, r.value.orientation)
    decreases |w| - pos
  {
    q, at := pos, found;
    if pos < |w| {
      assert Reaches(w, pos, found, pos, found);
      match ScanStep(w, pos, found)
      case Finish(_) =>
      case Advance(next, found') =>
        var r := ScanFrom(w, pos, found);
        assert r == ScanFrom(w, next, found');
        if r.Success? && r.value.orientation != found'.orientation {
          q, at := OrientationSegment(w, next, found');
          ReachesThroughStep(w, pos, found, q, at);
        }
    }
  }

  /**
   * The scan reports nothing it did not read: a width comes with the height of
   * the same frame header, both read from it, and an orientation comes from an
   * EXIF segment; each sits at a marker the scan arrives at (unless they were
   * found before `pos`).
   */
  lemma ScanSound(w: seq<Byte>, pos: nat, found: ImageSize)
    requires pos <= |w|
    ensures ScanFrom(w, pos, found).Success? ==>
      (ScanFrom(w, pos, found).value.width.Some? ==>
        (ScanFrom(w, pos, found).value.width == found.width && ScanFrom(w, pos, found).value.height == found.height) ||
        exists q: nat, at: ImageSize :: Reaches(w, pos, found, q, at) && SizeReadAt(w, ScanFrom(w, pos, found).value, q)) &&
      (ScanFrom(w, pos, found).value.orientation.Some? ==>
        ScanFrom(w, pos, found).value.orientation == found.orientation ||
        exists q: nat, at: ImageSize :: Reaches(w, pos, found, q, at) &&
          ExifSegmentAt(w, Min(q + 2, |w|), ScanFrom(w, pos, found).value.orientation.value))
  {
    var r := ScanFrom(w, pos, found);
    if r.Success? {
      var v := r.value;
      assert v.width.Some? ==>
        (v.width == found.width && v.height == found.height) ||
        exists q: nat, at: ImageSize :: Reaches(w, pos, found, q, at) && SizeReadAt(w, v, q)
      by {
        if v.width.Some? && !(v.width == found.width && v.height == found.height) {
          var q, at := SizeHeader(w, pos, found);
          assert Reaches(w, pos, found, q, at) && SizeReadAt(w, v, q);
        }
      }
      assert v.orientation.Some? ==>
        v.orientation == found.orientation ||
        exists q: nat, at: ImageSize :: Reaches(w, pos, found, q, at) && ExifSegmentAt(w, Min(q + 2, |w|), v.orientation.value)
      by {
        if v.orientation.Some? && v.orientation != found.orientation {
          var q, at := OrientationSegment(w, pos, found);
          OrientationSetBySegment(w, q, at, v.orientation.value);
          assert Reaches(w, pos, found, q, at) && ExifSegmentAt(w, Min(q + 2, |w|), v.orientation.value);
        }
      }
    }
  }

  /** The width and height `calculate` reports were read from a frame header the scan arrives at. */
  lemma SizeFromFrameHeader(w: seq<Byte>)
    requires CalculateOf(w).Success? && CalculateOf(w).value.width.Some?
    ensures exists q: nat, at: ImageSize ::
      Visits(w, q, at) && FrameHeaderAt(w, q) &&
      CalculateOf(w).value.width == Some(w[q + 7] as int * 256 + w[q + 8]) &&
      CalculateOf(w).value.height == Some(w[q + 5] as int * 256 + w[q + 6])
  {
    assert Validate(w) && CalculateOf(w) == ScanFrom(w, 2, NOTHING_YET);
    var q, at := SizeHeader(w, 2, NOTHING_YET);
    assert Visits(w, q, at);
  }

  /** The scan only moves forward. */
  lemma {:induction false} ReachesForward(w: seq<Byte>, pos: nat, found: ImageSize, q: nat, at: ImageSize)
    requires pos <= |w| && Reaches(w, pos, found, q, at)
    ensures pos <= q <= |w|
    decreases |w| - pos
  {
    if !(pos == q && found == at) {
      var s := ScanStep(w, pos, found);
      ReachesForward(w, s.next, s.found, q, at);
    }
  }

  /** Arriving is transitive: where the scan goes from a marker it arrives at, it goes from the start. */
  lemma {:induction false} ReachesTransitive(w: seq<Byte>, pos: nat, found: ImageSize, q: nat, at: ImageSize, q': nat, at': ImageSize)
    requires pos <= |w| && Reaches(w, pos, found, q, at)
    requires q <= |w| && Reaches(w, q, at, q', at')
    ensures Reaches(w, pos, found, q', at')
    decreases |w| - pos
  {
    if !(pos == q && found == at) {
      var s := ScanStep(w, pos, found);
      ReachesTransitive(w, s.next, s.found, q, at, q', at');
    }
  }

  /** A scan that meets no frame marker from `pos` on keeps the width and height found before `pos`. */
  lemma {:induction false} ScanKeepsSize(w: seq<Byte>, pos: nat, found: ImageSize)
    requires pos <= |w|
    requires forall q: nat, at: ImageSize :: Reaches(w, pos, found, q, at) && q < |w| && w[q] == MARKER_SYNC ==> !IsFrameMarker(ByteAt(w, q + 1))
    ensures var r := ScanFrom(w, pos, found);
      r.Success? ==> r.value.width == found.width && r.value.height == found.height
    decreases |w| - pos
  {
    if pos < |w| {
      assert Reaches(w, pos, found, pos, found);
      var s := ScanStep(w, pos, found);
      if s.Advance? {
        forall q: nat, at: ImageSize | Reaches(w, s.next, s.found, q, at) && q < |w| && w[q] == MARKER_SYNC
          ensures !IsFrameMarker(ByteAt(w, q + 1))
        {
          assert Reaches(w, pos, found, q, at);
        }
        ScanKeepsSize(w, s.next, s.found);
      }
    }
  }

  /** From a frame header at `q` that is followed by no other frame marker, the scan reports that header's size. */
  lemma ScanFromFrameHeader(w: seq<Byte>, q: nat, at: ImageSize)
    requires FrameHeaderAt(w, q)
    requires forall q': nat, at': ImageSize :: Reaches(w, q, at, q', at') && q < q' < |w| && w[q'] == MARKER_SYNC ==> !IsFrameMarker(ByteAt(w, q' + 1))
    ensures var r := ScanFrom(w, q, at);
      r.Success? ==>
        r.value.width == Some(w[q + 7] as int * 256 + w[q + 8]) &&
        r.value.height == Some(w[q + 5] as int * 256 + w[q + 6])
  {
    StepFrameHeader(w, q, at);
    var s := ScanStep(w, q, at);
    if s.Advance? {
      forall q': nat, at': ImageSize | Reaches(w, s.next, s.found, q', at') && q' < |w| && w[q'] == MARKER_SYNC
        ensures !IsFrameMarker(ByteAt(w, q' + 1))
      {
        assert Reaches(w, q, at, q', at');
        ReachesForward(w, s.next, s.found, q', at');
      }
      ScanKeepsSize(w, s.next, s.found);
      assert ScanFrom(w, q, at) == ScanFrom(w, s.next, s.found);
    }
  }

  /**
   * The last frame header wins: if the scan arrives at a frame header at q,
   * meets no frame marker after it, and `calculate` succeeds, the width and
   * height reported are those of the header at q.
   */
  lemma LastFrameHeaderWins(w: seq<Byte>, q: nat, at: ImageSize)
    requires Visits(w, q, at) && FrameHeaderAt(w, q)
    requires forall q': nat, at': ImageSize :: Visits(w, q', at') && q < q' < |w| && w[q'] == MARKER_SYNC ==> !IsFrameMarker(ByteAt(w, q' + 1))
    requires CalculateOf(w).Success?
    ensures CalculateOf(w).value.width == Some(w[q + 7] as int * 256 + w[q + 8])
    ensures CalculateOf(w).value.height == Some(w[q + 5] as int * 256 + w[q + 6])
  {
    assert CalculateOf(w) == ScanFrom(w, 2, NOTHING_YET);
    ScanFromReached(w, 2, NOTHING_YET, q, at);
    forall q': nat, at': ImageSize | Reaches(w, q, at, q', at') && q < q' < |w| && w[q'] == MARKER_SYNC
      ensures !IsFrameMarker(ByteAt(w, q' + 1))
    {
      ReachesTransitive(w, 2, NOTHING_YET, q, at, q', at');
      assert Visits(w, q', at');
    }
    ScanFromFrameHeader(w, q, at);
  }

  /**
   * A window holding SOI, one frame-header segment that carries no "Exif", and then
   * `FF DA` gives that frame's width and height and no orientation. The declared
   * length L is only used to find the next marker.
   */
  lemma FrameThenScan(w: seq<Byte>)
    requires Validate(w) && FrameHeaderAt(w, 2) && !IsExif(w[4..])
    requires var L := w[4] as int * 256 + w[5];
      4 + L + 2 <= |w| && w[4 + L] == 0xFF && w[4 + L + 1] == 0xDA
    ensures CalculateOf(w) == Success(ImageSize(Some(w[9] as int * 256 + w[10]), Some(w[7] as int * 256 + w[8]), None))
  {
    var L := w[4] as int * 256 + w[5];
    var sized := FrameSize(w, 2, NOTHING_YET);
    assert sized == ImageSize(Some(w[9] as int * 256 + w[10]), Some(w[7] as int * 256 + w[8]), None);
    assert OrientationAfter(w[4..], None) == None;
    assert SegmentStep(w, 4, sized) == Advance(4 + L, sized);
    assert ScanStep(w, 2, NOTHING_YET) == Advance(4 + L, sized);
    StepStopsAtScan(w, 4 + L, sized);
    assert ScanFrom(w, 4 + L, sized) == Success(sized);
  }

  /**
   * End to end: a window opening `FF D8 FF C0 00 11 08 01 00 02 00` (SOI, then an
   * SOF0 segment of length 17 with precision 8, height 256 and width 512) whose
   * next marker, at offset 21, is `FF DA`: the result is width 512, height 256 and
   * no orientation, whatever the other bytes of the segment hold.
   */
  lemma BaselineExample(w: seq<Byte>)
    requires |w| >= 23
    requires w[..11] == [0xFF, 0xD8, 0xFF, 0xC0, 0x00, 0x11, 0x08, 0x01, 0x00, 0x02, 0x00]
    requires w[21] == 0xFF && w[22] == 0xDA
    ensures CalculateOf(w) == Success(ImageSize(Some(512), Some(256), None))
  {
    assert w[4..][2] == w[6] == 0x08;
    FrameThenScan(w);
  }
}
