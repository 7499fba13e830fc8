/**
 * Locating serialized `FileDescriptorProto` records in a binary blob
 * (`main`, the anchor loop). Every record starts with its file name, field 1,
 * length-delimited, and that name ends in ".proto". For each occurrence of
 * ".proto" (an anchor) the locator walks backwards looking for the varint
 * length of the name, checks the tag in front of it, and then parses from
 * there, shrinking the window after each failed parse.
 *
 * `FileDescriptorProto.parseFrom` is a parameter: given the bytes of a
 * window it either yields a record or fails after reading some of them.
 */
module Locator {
  import opened Bytes
  import opened Varint
  import Kmp

  /** The outcome of parsing one window: a record, or a failure after `consumed` bytes. */
  datatype ParseResult<R> = Parsed(record: R) | Failed(consumed: nat)

  /** A parser never reports reading more than the window it was given (the stream's limit). */
  ghost predicate ReadsWithinWindow<R>(parse: seq<byte> -> ParseResult<R>)
  {
    forall w :: parse(w).Failed? ==> parse(w).consumed <= |w|
  }

  /**
   * `Character.isISOControl` of the byte read through `toInt().toChar()`.
   * The byte is signed, so 0x80-0x9F become U+FF80-U+FF9F and are not
   * control characters: only 0x00-0x1F and 0x7F are.
   */
  predicate IsIsoControl(b: byte)
  {
    b <= 0x1f || b == 0x7f
  }

  /** The outcome of the shrink-and-retry loop for a record starting at `begin`. */
  datatype ShrinkResult<R> = Done(size: nat, record: R) | Thrown

  /**
   * The shrink loop from a window of `size` bytes: parse `bytes[begin..begin+size]`;
   * on failure retry with `consumed - 1` bytes. A window size of -1 makes
   * `CodedInputStream.newInstance` throw, outside the loop's own try.
   */
  function Shrink<R>(bytes: seq<byte>, begin: nat, size: int, parse: seq<byte> -> ParseResult<R>): (r: ShrinkResult<R>)
    requires ReadsWithinWindow(parse)
    requires -1 <= size && begin + size <= |bytes|
    ensures r.Done? ==> r.size <= size && parse(bytes[begin..begin + r.size]) == Parsed(r.record)
    decreases size + 1
  {
    if size < 0 then Thrown
    else
      match parse(bytes[begin..begin + size])
      case Parsed(record) => Done(size, record)
      case Failed(consumed) => Shrink(bytes, begin, consumed - 1, parse)
  }

  /**
   * The shrink loop as the source runs it: parse the window
   * `[begin, begin + offset0)`, starting with the rest of the blob, and after
   * each failure retry with one byte less than the parser read. It ends with
   * a record, or with the exception `newInstance` throws for a negative size.
   */
  method ShrinkWindow<R>(bytes: seq<byte>, begin: nat, parse: seq<byte> -> ParseResult<R>) returns (r: ShrinkResult<R>)
    requires ReadsWithinWindow(parse)
    requires begin <= |bytes|
    ensures r == Shrink(bytes, begin, |bytes| - begin, parse)
  {
    var offset0 := |bytes| - begin;
    while offset0 >= 0
      invariant -1 <= offset0 <= |bytes| - begin
      invariant Shrink(bytes, begin, |bytes| - begin, parse) == Shrink(bytes, begin, offset0, parse)
      decreases offset0 + 1
    {
      var result := parse(bytes[begin..begin + offset0]);
      if result.Parsed? {
        return Done(offset0, result.record);
      }
      offset0 := result.consumed - 1;
    }
    return Thrown;
  }

  /** What one iteration of the backward walk, at distance `offset` from the anchor, does. */
  datatype Step<R> = Continue | Stop | Found(begin: nat, size: nat, record: R)

  function StepAt<R>(bytes: seq<byte>, anchor: int, offset: int, parse: seq<byte> -> ParseResult<R>): Step<R>
    requires ReadsWithinWindow(parse)
    requires 0 <= anchor <= |bytes| && 0 <= offset
  {
    var start := anchor - offset;
    if start < 0 then Continue // reading before the array throws; the walk goes on
    else
      match ReadRawVarint32(bytes[start..anchor])
      case None => Continue // truncated or malformed varint throws; the walk goes on
      case Some((length, _)) =>
        if length == offset + 5 then
          var begin := anchor - offset - 1;
          if begin < 0 then Continue
          else FrameAt(bytes, begin, parse)
        else if IsIsoControl(bytes[start]) then Stop
        else Continue
  }

  /**
   * The step once the length matched: the tag at `begin` must be 10, and then
   * the shrink loop either yields the record or throws.
   */
  function FrameAt<R>(bytes: seq<byte>, begin: nat, parse: seq<byte> -> ParseResult<R>): Step<R>
    requires ReadsWithinWindow(parse)
    requires begin <= |bytes|
  {
    match ReadTag(bytes[begin..])
    case None => Continue // a malformed tag throws; the walk goes on
    case Some(tag) =>
      if tag != 10 then Stop
      else
        match Shrink(bytes, begin, |bytes| - begin, parse)
        case Done(size, record) => Found(begin, size, record)
        case Thrown => Continue
  }

  /** The result of the backward walk from one anchor. */
  datatype WalkOutcome<R> = Record(begin: nat, size: nat, record: R) | NoRecord | Diverges

  /** What the walk does at each distance `0..anchor`; beyond that every step throws. */
  function Steps<R>(bytes: seq<byte>, anchor: int, parse: seq<byte> -> ParseResult<R>): (s: seq<Step<R>>)
    requires ReadsWithinWindow(parse)
    requires 0 <= anchor <= |bytes|
    ensures |s| == anchor + 1
  {
    seq(anchor + 1, o requires 0 <= o => StepAt(bytes, anchor, o, parse))
  }

  /** The walk from distance `offset` on, over the steps it would take. */
  function WalkFrom<R>(steps: seq<Step<R>>, offset: nat): WalkOutcome<R>
    decreases |steps| - offset
  {
    if offset >= |steps| then Diverges
    else
      match steps[offset]
      case Continue => WalkFrom(steps, offset + 1)
      case Stop => NoRecord
      case Found(begin, size, record) => Record(begin, size, record)
  }

  /**
   * The outcome of the backward walk from `anchor`. Past the start of the
   * blob every iteration throws and the walk goes on for ever: that is
   * `Diverges`.
   */
  function Walk<R>(bytes: seq<byte>, anchor: int, parse: seq<byte> -> ParseResult<R>): WalkOutcome<R>
    requires ReadsWithinWindow(parse)
    requires 0 <= anchor <= |bytes|
  {
    WalkFrom(Steps(bytes, anchor, parse), 0)
  }

  /**
   * The walk for one anchor, as the source runs it: `offset` steps back from
   * the anchor until an iteration breaks out of the loop.
   */
  method LocateAt<R>(bytes: seq<byte>, anchor: int, parse: seq<byte> -> ParseResult<R>) returns (out: WalkOutcome<R>)
    requires ReadsWithinWindow(parse)
    requires 0 <= anchor <= |bytes|
    ensures out == Walk(bytes, anchor, parse)
  {
    ghost var steps := Steps(bytes, anchor, parse);
    var offset := 0;
    while offset <= anchor
      invariant 0 <= offset <= anchor + 1
      invariant Walk(bytes, anchor, parse) == WalkFrom(steps, offset)
      decreases anchor + 1 - offset
    {
      var step := TryStep(bytes, anchor, offset, parse);
      assert steps[offset] == step;
      match step {
        case Stop => return NoRecord;
        case Found(begin, size, record) => return Record(begin, size, record);
        case Continue =>
      }
      offset := offset + 1;
    }
    return Diverges;
  }

  /**
   * One iteration of the walk, the body of its `try`: read the length
   * varint ending at the anchor; when it is the distance plus five, check
   * the tag before it and run the shrink loop; otherwise stop at a control
   * byte. An exception anywhere in the body lets the walk go on.
   */
  method TryStep<R>(bytes: seq<byte>, anchor: int, offset: int, parse: seq<byte> -> ParseResult<R>) returns (step: Step<R>)
    requires ReadsWithinWindow(parse)
    requires 0 <= offset <= anchor <= |bytes|
    ensures step == StepAt(bytes, anchor, offset, parse)
  {
    var start := anchor - offset;
    var read := ReadRawVarint32(bytes[start..anchor]);
    if read.None? {
      return Continue;
    }
    var length := read.value.0;
    if length == offset + 5 {
      var begin := anchor - offset - 1;
      if begin < 0 {
        return Continue;
      }
      step := TryFrame(bytes, begin, parse);
    } else if IsIsoControl(bytes[start]) {
      return Stop;
    } else {
      return Continue;
    }
  }

  /** The matched-length branch of the walk's body: read the tag, then run the shrink loop. */
  method TryFrame<R>(bytes: seq<byte>, begin: nat, parse: seq<byte> -> ParseResult<R>) returns (step: Step<R>)
    requires ReadsWithinWindow(parse)
    requires begin <= |bytes|
    ensures step == FrameAt(bytes, begin, parse)
  {
    var tag := ReadTag(bytes[begin..]);
    if tag.None? {
      return Continue;
    }
    if tag.value != 10 {
      return Stop;
    }
    var shrunk := ShrinkWindow(bytes, begin, parse);
    if shrunk.Done? {
      return Found(begin, shrunk.size, shrunk.record);
    }
    return Continue;
  }

  // ---------------------------------------------------------------------
  // Properties of one walk
  // ---------------------------------------------------------------------

  /** A walk ends with a record only at a step that found it, and after steps that went on. */
  lemma {:induction false} WalkFromRecord<R>(steps: seq<Step<R>>, offset: nat)
    ensures var out := WalkFrom(steps, offset);
      out.Record? ==> exists o :: offset <= o < |steps| && steps[o] == Found(out.begin, out.size, out.record)
    decreases |steps| - offset
  {
    if offset < |steps| && steps[offset].Continue? {
      WalkFromRecord(steps, offset + 1);
    }
  }

  /** A walk diverges exactly when every step goes on. */
  lemma {:induction false} WalkFromDiverges<R>(steps: seq<Step<R>>, offset: nat)
    ensures WalkFrom(steps, offset) == Diverges <==> forall o :: offset <= o < |steps| ==> steps[o] == Continue
    decreases |steps| - offset
  {
    if offset < |steps| {
      WalkFromDiverges(steps, offset + 1);
    }
  }

  /** The conditions under which one step finds a record. */
  ghost predicate AcceptedAt<R>(bytes: seq<byte>, anchor: int, offset: int, parse: seq<byte> -> ParseResult<R>,
                                begin: int, size: int, record: R)
  {
    0 <= offset <= anchor <= |bytes| && begin == anchor - offset - 1 && 0 <= begin && begin + size <= |bytes| &&
    ReadRawVarint32(bytes[anchor - offset..anchor]).Some? &&
    ReadRawVarint32(bytes[anchor - offset..anchor]).value.0 == offset + 5 &&
    ReadTag(bytes[begin..]) == Some(10) &&
    0 <= size && parse(bytes[begin..begin + size]) == Parsed(record)
  }

  lemma StepFoundSound<R>(bytes: seq<byte>, anchor: int, offset: int, parse: seq<byte> -> ParseResult<R>)
    requires ReadsWithinWindow(parse)
    requires 0 <= anchor <= |bytes| && 0 <= offset
    ensures var step := StepAt(bytes, anchor, offset, parse);
      step.Found? ==> AcceptedAt(bytes, anchor, offset, parse, step.begin, step.size, step.record)
  {
  }

  /**
   * A record is only accepted at `begin = anchor - offset - 1` where the
   * varint read from the `offset` bytes before the anchor is `offset + 5`,
   * the tag at `begin` is 10 (field 1, length-delimited), and the record is
   * what the parser made of a window `[begin, begin + size)` of the blob.
   */
  lemma WalkRecordSound<R>(bytes: seq<byte>, anchor: int, parse: seq<byte> -> ParseResult<R>)
    requires ReadsWithinWindow(parse)
    requires 0 <= anchor <= |bytes|
    ensures var out := Walk(bytes, anchor, parse);
      out.Record? ==> AcceptedAt(bytes, anchor, anchor - out.begin - 1, parse, out.begin, out.size, out.record)
  {
    var steps := Steps(bytes, anchor, parse);
    WalkFromRecord(steps, 0);
    var out := Walk(bytes, anchor, parse);
    if out.Record? {
      var o :| 0 <= o < |steps| && steps[o] == Found(out.begin, out.size, out.record);
      StepFoundSound(bytes, anchor, o, parse);
    }
  }

  /**
   * The walk stops without a record in exactly two ways: the varint matched
   * but the tag in front of it is not 10, or the varint did not match and the
   * byte at `anchor - offset` is an ISO control character.
   */
  lemma StepStopCases<R>(bytes: seq<byte>, anchor: int, offset: int, parse: seq<byte> -> ParseResult<R>)
    requires ReadsWithinWindow(parse)
    requires 0 <= anchor <= |bytes| && 0 <= offset
    ensures StepAt(bytes, anchor, offset, parse).Stop? <==>
      0 <= anchor - offset < anchor &&
      var read := ReadRawVarint32(bytes[anchor - offset..anchor]);
      read.Some? &&
      if read.value.0 == offset + 5 then
        1 <= anchor - offset && ReadTag(bytes[anchor - offset - 1..]).Some? &&
        ReadTag(bytes[anchor - offset - 1..]).value != 10
      else IsIsoControl(bytes[anchor - offset])
  {
    var start := anchor - offset;
    var step := StepAt(bytes, anchor, offset, parse);
    if start < 0 {
      assert step == Continue;
    } else if start == anchor {
      assert bytes[start..anchor] == [];
      assert step == Continue;
    } else {
      var read := ReadRawVarint32(bytes[start..anchor]);
      if read.None? {
        assert step == Continue;
      } else if read.value.0 != offset + 5 {
        assert step == if IsIsoControl(bytes[start]) then Stop else Continue;
      } else if start < 1 {
        assert step == Continue;
      } else {
        assert step == FrameAt(bytes, start - 1, parse);
        FrameStop(bytes, start - 1, parse);
      }
    }
  }

  lemma FrameStop<R>(bytes: seq<byte>, begin: nat, parse: seq<byte> -> ParseResult<R>)
    requires ReadsWithinWindow(parse)
    requires begin <= |bytes|
    ensures FrameAt(bytes, begin, parse).Stop? <==> ReadTag(bytes[begin..]).Some? && ReadTag(bytes[begin..]).value != 10
  {
  }

  /**
   * `Diverges` is exactly the case where the source's `while (true)` never
   * ends: the step at every distance, including those past the start of the
   * blob, goes on walking.
   */
  lemma WalkDiverges<R>(bytes: seq<byte>, anchor: int, parse: seq<byte> -> ParseResult<R>)
    requires ReadsWithinWindow(parse)
    requires 0 <= anchor <= |bytes|
    ensures Walk(bytes, anchor, parse) == Diverges <==>
      forall o :: 0 <= o ==> StepAt(bytes, anchor, o, parse) == Continue
  {
    var steps := Steps(bytes, anchor, parse);
    WalkFromDiverges(steps, 0);
    if Walk(bytes, anchor, parse) == Diverges {
      forall o | 0 <= o ensures StepAt(bytes, anchor, o, parse) == Continue {
        if o <= anchor {
          assert steps[o] == StepAt(bytes, anchor, o, parse);
        }
      }
    } else {
      var o :| 0 <= o < |steps| && steps[o] != Continue;
      assert steps[o] == StepAt(bytes, anchor, o, parse);
    }
  }

  // ---------------------------------------------------------------------
  // All anchors
  // ---------------------------------------------------------------------

  /** A located record with the anchor it came from and the window it was parsed from. */
  datatype Located<R> = Located(anchor: int, begin: nat, size: nat, record: R)

  /** Every anchor lies inside the blob. */
  predicate AnchorsInside(bytes: seq<byte>, anchors: seq<int>)
  {
    forall k :: 0 <= k < |anchors| ==> 0 <= anchors[k] <= |bytes|
  }

  /** The outcome of the walk from each anchor. */
  function Outcomes<R>(bytes: seq<byte>, anchors: seq<int>, parse: seq<byte> -> ParseResult<R>): (o: seq<WalkOutcome<R>>)
    requires ReadsWithinWindow(parse)
    requires AnchorsInside(bytes, anchors)
    ensures |o| == |anchors|
  {
    seq(|anchors|, k requires 0 <= k < |anchors| => Walk(bytes, anchors[k], parse))
  }

  /**
   * What the anchor loop has collected after the first `n` anchors: the
   * records found, in order, and whether some walk never ended (the source
   * then never gets further).
   */
  function Collect<R>(anchors: seq<int>, outcomes: seq<WalkOutcome<R>>, n: nat): (seq<Located<R>>, bool)
    requires n <= |anchors| == |outcomes|
  {
    if n == 0 then ([], false)
    else
      var (found, diverged) := Collect(anchors, outcomes, n - 1);
      if diverged then (found, true)
      else
        match outcomes[n - 1]
        case Record(begin, size, record) => (found + [Located(anchors[n - 1], begin, size, record)], false)
        case NoRecord => (found, false)
        case Diverges => (found, true)
  }

  /** The records located from all anchors of `bytes`, and whether the source would hang. */
  function LocateAllSpec<R>(bytes: seq<byte>, anchors: seq<int>, parse: seq<byte> -> ParseResult<R>): (seq<Located<R>>, bool)
    requires ReadsWithinWindow(parse)
    requires AnchorsInside(bytes, anchors)
  {
    Collect(anchors, Outcomes(bytes, anchors, parse), |anchors|)
  }

  /** The anchors are visited in order: each anchor adds at most one record, at the end. */
  method LocateAll<R>(bytes: seq<byte>, anchors: seq<int>, parse: seq<byte> -> ParseResult<R>)
    returns (found: seq<Located<R>>, diverged: bool)
    requires ReadsWithinWindow(parse)
    requires AnchorsInside(bytes, anchors)
    ensures (found, diverged) == LocateAllSpec(bytes, anchors, parse)
  {
    ghost var outcomes := Outcomes(bytes, anchors, parse);
    found, diverged := [], false;
    var k := 0;
    while k < |anchors|
      invariant 0 <= k <= |anchors|
      invariant (found, diverged) == Collect(anchors, outcomes, k) && !diverged
    {
      var out := LocateAt(bytes, anchors[k], parse);
      assert out == outcomes[k];
      CollectNext(anchors, outcomes, k);
      match out {
        case Diverges =>
          diverged := true;
          CollectStaysDiverged(anchors, outcomes, k + 1, |anchors|);
          return;
        case Record(begin, size, record) =>
          found := found + [Located(anchors[k], begin, size, record)];
        case NoRecord =>
      }
      k := k + 1;
    }
  }

  /** One more anchor, while no walk has diverged: the collection grows by that anchor's outcome. */
  lemma CollectNext<R>(anchors: seq<int>, outcomes: seq<WalkOutcome<R>>, k: nat)
    requires k < |anchors| == |outcomes|
    requires !Collect(anchors, outcomes, k).1
    ensures var found := Collect(anchors, outcomes, k).0;
      Collect(anchors, outcomes, k + 1) ==
        match outcomes[k]
        case Record(begin, size, record) => (found + [Located(anchors[k], begin, size, record)], false)
        case NoRecord => (found, false)
        case Diverges => (found, true)
  {
  }

  lemma {:induction false} CollectStaysDiverged<R>(anchors: seq<int>, outcomes: seq<WalkOutcome<R>>, n: nat, m: nat)
    requires n <= m <= |anchors| == |outcomes|
    requires Collect(anchors, outcomes, n).1
    ensures Collect(anchors, outcomes, m) == Collect(anchors, outcomes, n)
    decreases m - n
  {
    if n < m {
      CollectStaysDiverged(anchors, outcomes, n, m - 1);
    }
  }

  /**
   * What the anchor loop collects: each record comes from the outcome of one
   * of the first `n` anchors, with that anchor; anchors in ascending order
   * give records in ascending anchor order (so at most one per anchor); and
   * the loop is stuck exactly when some walk never ends.
   */
  lemma {:induction false} CollectSpec<R>(anchors: seq<int>, outcomes: seq<WalkOutcome<R>>, n: nat)
    requires n <= |anchors| == |outcomes|
    ensures var (found, diverged) := Collect(anchors, outcomes, n);
      |found| <= n &&
      (forall j :: 0 <= j < |found| ==>
         (exists k :: 0 <= k < n && anchors[k] == found[j].anchor &&
            outcomes[k] == Record(found[j].begin, found[j].size, found[j].record))) &&
      (Kmp.StrictlyIncreasing(anchors) ==> forall a, b :: 0 <= a < b < |found| ==> found[a].anchor < found[b].anchor) &&
      (diverged <==> exists k :: 0 <= k < n && outcomes[k] == Diverges)
  {
    if n > 0 {
      CollectSpec(anchors, outcomes, n - 1);
      var prev := Collect(anchors, outcomes, n - 1);
      var found := Collect(anchors, outcomes, n).0;
      if |found| > |prev.0| {
        assert found == prev.0 + [found[|found| - 1]];
        forall j | 0 <= j < |prev.0|
          ensures (exists k :: 0 <= k < n - 1 && anchors[k] == found[j].anchor &&
                     outcomes[k] == Record(found[j].begin, found[j].size, found[j].record))
        {
          assert found[j] == prev.0[j];
        }
        if Kmp.StrictlyIncreasing(anchors) {
          forall j | 0 <= j < |prev.0| ensures found[j].anchor < anchors[n - 1] {
            assert found[j] == prev.0[j];
            var k :| 0 <= k < n - 1 && anchors[k] == found[j].anchor;
          }
        }
      }
    }
  }

  /**
   * Every located record satisfies the acceptance conditions at its own
   * anchor: the name length varint, the tag 10 at `begin`, and a successful
   * parse of the window `[begin, begin + size)`.
   */
  lemma LocateAllSound<R>(bytes: seq<byte>, anchors: seq<int>, parse: seq<byte> -> ParseResult<R>)
    requires ReadsWithinWindow(parse)
    requires AnchorsInside(bytes, anchors)
    ensures var (found, _) := LocateAllSpec(bytes, anchors, parse);
      |found| <= |anchors| &&
      forall j :: 0 <= j < |found| ==>
        AcceptedAt(bytes, found[j].anchor, found[j].anchor - found[j].begin - 1, parse,
                   found[j].begin, found[j].size, found[j].record)
  {
    var outcomes := Outcomes(bytes, anchors, parse);
    CollectSpec(anchors, outcomes, |anchors|);
    var found := LocateAllSpec(bytes, anchors, parse).0;
    forall j | 0 <= j < |found|
      ensures AcceptedAt(bytes, found[j].anchor, found[j].anchor - found[j].begin - 1, parse,
                         found[j].begin, found[j].size, found[j].record)
    {
      var k :| 0 <= k < |anchors| && anchors[k] == found[j].anchor &&
        outcomes[k] == Record(found[j].begin, found[j].size, found[j].record);
      WalkRecordSound(bytes, anchors[k], parse);
    }
  }

  /**
   * The whole locator: the anchors are the offsets of ".proto" found by the
   * byte-array search as the source writes it (US-ASCII decoding keeps one
   * character per byte), which for this pattern terminates and finds every
   * occurrence; the records are what the walks find there, in order.
   */
  method FindDescriptors<R>(bytes: seq<byte>, parse: seq<byte> -> ParseResult<R>)
    returns (found: seq<Located<R>>, diverged: bool)
    requires ReadsWithinWindow(parse)
    ensures var anchors := Kmp.Occurrences(bytes, Kmp.ProtoSuffix);
      AnchorsInside(bytes, anchors) && (found, diverged) == LocateAllSpec(bytes, anchors, parse)
  {
    assert Kmp.FirstByteUnique(Kmp.ProtoSuffix);
    var anchors, _ := Kmp.OccurrencesOfAsWritten(bytes, Kmp.ProtoSuffix);
    Kmp.OccurrencesSpec(bytes, Kmp.ProtoSuffix);
    assert AnchorsInside(bytes, anchors) by {
      forall k | 0 <= k < |anchors| ensures 0 <= anchors[k] <= |bytes| {
        assert anchors[k] in anchors;
      }
    }
    found, diverged := LocateAll(bytes, anchors, parse);
  }
}
