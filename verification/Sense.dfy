/** How a completed SCSI command becomes a read failure: the sense data of
    sections 4.5.2 (descriptor format) and 4.5.3 (fixed format) of SPC-4, and
    the classifier that every later decision rests on. */
module Sense {
  import opened Common

  const MAX_SENSE_BYTES: nat := 252

  /** What the transport captured for one request. `sense` holds the bytes that
      were kept; `reportedLength` is what the device claims to have sent. */
  datatype Completion = Completion(
    requestedLba: nat, requestedBlocks: nat, retryOrdinal: nat,
    captured: bool, commandCompleted: bool,
    scsiStatus: Byte, hostStatus: Word, driverStatus: Word,
    reportedLength: nat, sense: seq<Byte>)

  datatype DecodedSense = DecodedSense(
    recognizedFormat: bool, responseCode: Option<nat>, senseKey: Option<nat>,
    asc: Option<nat>, ascq: Option<nat>, informationLba: Option<nat>)

  const NO_SENSE := DecodedSense(false, None, None, None, None, None)

  function BigEndian(bytes: seq<Byte>): nat {
    if bytes == [] then 0
    else BigEndian(bytes[..|bytes| - 1]) * 256 + bytes[|bytes| - 1]
  }

  predicate InRequest(c: Completion, lba: nat) {
    c.requestedLba <= lba < c.requestedLba + c.requestedBlocks
  }

  function Named(c: Completion, lba: nat): Option<nat> {
    if InRequest(c, lba) then Some(lba) else None
  }

  /** A whole descriptor starts at `o`. */
  predicate Fits(sense: seq<Byte>, o: nat) {
    o + 2 <= |sense| && o + 2 + sense[o + 1] <= |sense|
  }

  predicate AllFit(sense: seq<Byte>, offsets: seq<nat>) {
    forall k :: 0 <= k < |offsets| ==> Fits(sense, offsets[k])
  }

  /** The offsets at which the descriptors tiling `[at, end)` begin, or nothing
      when the bytes do not tile. */
  function DescriptorOffsets(sense: seq<Byte>, at: nat, end: nat): (r: Option<seq<nat>>)
    requires end <= |sense|
    ensures r.Some? ==> AllFit(sense, r.value)
    decreases end - at
  {
    if at >= end then Some([])
    else if end - at < 2 || 2 + sense[at + 1] > end - at then None
    else
      match DescriptorOffsets(sense, at + 2 + sense[at + 1], end)
      case None => None
      case Some(rest) => Some([at] + rest)
  }

  /** The information descriptors among them: those of type zero. */
  function InformationOffsets(sense: seq<Byte>, offsets: seq<nat>): (r: seq<nat>)
    requires AllFit(sense, offsets)
    ensures AllFit(sense, r) && forall k :: 0 <= k < |r| ==> sense[r[k]] == 0
  {
    if offsets == [] then []
    else if sense[offsets[0]] == 0 then [offsets[0]] + InformationOffsets(sense, offsets[1..])
    else InformationOffsets(sense, offsets[1..])
  }

  /** Additional length 0Ah and every reserved bit clear. */
  predicate WellFormedInformation(sense: seq<Byte>, o: nat)
    requires Fits(sense, o)
  {
    sense[o + 1] == 10 && sense[o + 2] % 128 == 0 && sense[o + 3] == 0
  }

  /** The address a descriptor-format record names. It is taken only from a
      record that arrived whole, tiles exactly, and holds a single information
      descriptor that is well formed, marked valid and inside the request. */
  function DescriptorInformation(c: Completion): Option<nat>
    requires |c.sense| >= 8
  {
    var declared: nat := 8 + c.sense[7] as nat;
    var end := Min(|c.sense|, declared);
    match DescriptorOffsets(c.sense, 8, end)
    case None => None
    case Some(offsets) =>
      var found := InformationOffsets(c.sense, offsets);
      if |c.sense| >= declared && |found| == 1 && WellFormedInformation(c.sense, found[0])
         && c.sense[found[0] + 2] >= 128
      then Named(c, BigEndian(c.sense[found[0] + 4..found[0] + 12]))
      else None
  }

  function FixedSense(c: Completion): DecodedSense
    requires |c.sense| > 0
  {
    var key := if |c.sense| >= 3 then Some(c.sense[2] % 16) else None;
    if |c.sense| < 8 then DecodedSense(false, Some(c.sense[0] % 128), key, None, None, None)
    else
      var usable := Min(|c.sense|, 8 + c.sense[7] as nat);
      DecodedSense(true, Some(c.sense[0] % 128), key,
                   if usable >= 13 then Some(c.sense[12]) else None,
                   if usable >= 14 then Some(c.sense[13]) else None,
                   if c.sense[0] >= 128 then Named(c, BigEndian(c.sense[3..7])) else None)
  }

  /** What the sense bytes of a completion say. */
  function DecodeSense(c: Completion): DecodedSense {
    if !c.captured || c.reportedLength > MAX_SENSE_BYTES || c.reportedLength != |c.sense| || |c.sense| == 0 then
      NO_SENSE
    else if c.sense[0] % 128 == 0x70 || c.sense[0] % 128 == 0x71 then
      FixedSense(c)
    else if (c.sense[0] != 0x72 && c.sense[0] != 0x73) || |c.sense| < 4 then
      NO_SENSE.(responseCode := Some(c.sense[0] % 128))
    else
      DecodedSense(true, Some(c.sense[0]), Some(c.sense[1] % 16), Some(c.sense[2]), Some(c.sense[3]),
                   if |c.sense| < 8 then None else DescriptorInformation(c))
  }

  /** The running state of the descriptor scan and what it still stands for. */
  function ScanResult(c: Completion, rest: Option<seq<nat>>, seen: bool, valid: bool, info: Option<nat>): Option<nat>
    requires rest.Some? ==> AllFit(c.sense, rest.value)
  {
    if rest.None? || !valid then None
    else
      var found := InformationOffsets(c.sense, rest.value);
      if found == [] then info
      else if seen || |found| > 1 || !WellFormedInformation(c.sense, found[0]) then None
      else if c.sense[found[0] + 2] >= 128 then Named(c, BigEndian(c.sense[found[0] + 4..found[0] + 12]))
      else info
  }

  /** Whether the information descriptor at `o` spoils the scan. */
  predicate Spoils(sense: seq<Byte>, o: nat, seen: bool)
    requires Fits(sense, o)
  {
    sense[o + 1] != 10 || seen || sense[o + 2] % 128 != 0 || sense[o + 3] != 0
  }

  /** One descriptor further on, the scan still stands for the same result. */
  lemma ScanStep(c: Completion, offset: nat, end: nat, seen: bool, valid: bool, info: Option<nat>)
    requires offset + 2 <= end <= |c.sense| && 2 + c.sense[offset + 1] <= end - offset && (info.Some? ==> seen)
    ensures
      var next := offset + 2 + c.sense[offset + 1];
      var spoiled := c.sense[offset] == 0 && Spoils(c.sense, offset, seen);
      var found := c.sense[offset] == 0 && !spoiled;
      ScanResult(c, DescriptorOffsets(c.sense, offset, end), seen, valid, info)
      == ScanResult(c, DescriptorOffsets(c.sense, next, end), seen || found, valid && !spoiled,
                    if found && c.sense[offset + 2] >= 128
                    then Named(c, BigEndian(c.sense[offset + 4..offset + 12])) else info)
  {
    hide BigEndian, Named;
  }

  lemma ScanEnds(c: Completion, offset: nat, end: nat, seen: bool, valid: bool, info: Option<nat>)
    requires offset <= end <= |c.sense|
    ensures !valid ==> ScanResult(c, DescriptorOffsets(c.sense, offset, end), seen, valid, info) == None
    ensures offset == end ==>
              ScanResult(c, DescriptorOffsets(c.sense, offset, end), seen, valid, info) == if valid then info else None
    ensures offset < end && (end - offset < 2 || 2 + c.sense[offset + 1] > end - offset) ==>
              ScanResult(c, DescriptorOffsets(c.sense, offset, end), seen, valid, info) == None
  {
  }

  lemma ScanBegins(c: Completion)
    requires |c.sense| >= 8
    ensures
      var declared: nat := 8 + c.sense[7] as nat;
      ScanResult(c, DescriptorOffsets(c.sense, 8, Min(|c.sense|, declared)), false, |c.sense| >= declared, None)
      == DescriptorInformation(c)
  {
    hide BigEndian, Named;
  }

  /** The descriptor scan of the classifier, one descriptor at a time. */
  method ScanDescriptors(c: Completion) returns (info: Option<nat>)
    requires |c.sense| >= 8
    ensures info == DescriptorInformation(c)
  {
    hide BigEndian, Named, ScanResult, DescriptorOffsets, InformationOffsets;
    var declared: nat := 8 + c.sense[7] as nat;
    var end := Min(|c.sense|, declared);
    var seen, valid := false, |c.sense| >= declared;
    info := None;
    ScanBegins(c);
    var offset := 8;
    while offset < end
      invariant 8 <= offset <= end <= |c.sense|
      invariant info.Some? ==> seen
      invariant
        ScanResult(c, DescriptorOffsets(c.sense, offset, end), seen, valid, info)
        == DescriptorInformation(c)
      decreases end - offset
    {
      ScanEnds(c, offset, end, seen, valid, info);
      ScanEnds(c, offset, end, seen, false, info);
      if end - offset < 2 {
        valid := false;
        break;
      }
      var length: nat := 2 + c.sense[offset + 1] as nat;
      if length > end - offset {
        valid := false;
        break;
      }
      ScanStep(c, offset, end, seen, valid, info);
      if c.sense[offset] == 0 {
        if c.sense[offset + 1] != 10 || seen || c.sense[offset + 2] % 128 != 0 || c.sense[offset + 3] != 0 {
          valid := false;
        } else {
          seen := true;
          if c.sense[offset + 2] >= 128 {
            info := Named(c, BigEndian(c.sense[offset + 4..offset + 12]));
          }
        }
      }
      offset := offset + length;
    }
    ScanEnds(c, offset, end, seen, valid, info);
    if !valid {
      info := None;
    }
  }

  datatype FailureStatus = MediumError | OutOfRange | TerminalFailure

  datatype Category = Unknown | NotReady | UnitAttention | HardwareError | TransportError | ProtectionError

  datatype ReadFailure = ReadFailure(
    status: FailureStatus, category: Category, completion: Completion, sense: DecodedSense)

  function GetOr(o: Option<nat>): nat {
    if o.Some? then o.value else 0
  }

  predicate HasCheckConditionSense(c: Completion, sense: DecodedSense) {
    && c.captured && c.commandCompleted && sense.recognizedFormat
    && c.scsiStatus / 2 == 1 && c.hostStatus == 0
    && (c.driverStatus % 16 == 0 || c.driverStatus % 16 == 8)
    && sense.senseKey.Some? && sense.asc.Some? && sense.ascq.Some?
  }

  predicate HasCurrentSense(c: Completion, sense: DecodedSense) {
    HasCheckConditionSense(c, sense) && (sense.responseCode == Some(0x70) || sense.responseCode == Some(0x72))
  }

  predicate HasDeferredMediumSense(f: ReadFailure) {
    && HasCheckConditionSense(f.completion, f.sense)
    && (f.sense.responseCode == Some(0x71) || f.sense.responseCode == Some(0x73))
    && f.sense.senseKey == Some(3)
  }

  /** The classifier. Only current sense data can make a read a medium error or
      an out-of-range error; everything else ends the run. */
  function ClassifyReadFailure(c: Completion): ReadFailure {
    var sense := DecodeSense(c);
    var base := c.driverStatus % 16;
    if !c.captured || !c.commandCompleted then
      ReadFailure(TerminalFailure, Unknown, c, sense)
    else if c.hostStatus != 0 || base == 1 || base == 2 || base == 4 || base == 6 then
      ReadFailure(TerminalFailure, TransportError, c, sense)
    else if !HasCurrentSense(c, sense) then
      ReadFailure(TerminalFailure, Unknown, c, sense)
    else
      var key := sense.senseKey.value;
      if key == 2 then ReadFailure(TerminalFailure, NotReady, c, sense)
      else if key == 6 then ReadFailure(TerminalFailure, UnitAttention, c, sense)
      else if key == 3 then ReadFailure(MediumError, Unknown, c, sense)
      else if key == 5 && sense.asc == Some(0x21) && sense.ascq == Some(0) && sense.informationLba.Some? then
        ReadFailure(OutOfRange, Unknown, c, sense)
      else if key == 4 then ReadFailure(TerminalFailure, HardwareError, c, sense)
      else if key == 7 || (key == 5 && sense.asc == Some(0x6f)) then
        ReadFailure(TerminalFailure, ProtectionError, c, sense)
      else ReadFailure(TerminalFailure, Unknown, c, sense)
  }

  /** An address is never reported from outside the request that failed. */
  lemma InformationInRequest(c: Completion)
    ensures DecodeSense(c).informationLba.Some? ==> InRequest(c, DecodeSense(c).informationLba.value)
  {
  }

  /** What a tolerated failure has proved about itself, in the terms the parent
      process checks. */
  lemma MediumErrorFacts(c: Completion)
    requires ClassifyReadFailure(c).status.MediumError?
    ensures
      var s := DecodeSense(c);
      && c.hostStatus == 0 && c.scsiStatus / 2 == 1
      && (c.driverStatus % 16 == 0 || c.driverStatus % 16 == 8)
      && (s.responseCode == Some(0x70) || s.responseCode == Some(0x72)) && s.senseKey == Some(3)
      && s.asc.Some? && s.asc.value < 256 && s.ascq.Some? && s.ascq.value < 256
      && (s.informationLba.Some? ==> InRequest(c, s.informationLba.value))
  {
    InformationInRequest(c);
  }

  /** A deferred report never classifies a read as tolerable or as a boundary,
      whatever else it contains. */
  lemma DeferredIsTerminal(c: Completion)
    requires |c.sense| > 0 && (c.sense[0] % 128 == 0x71 || c.sense[0] % 128 == 0x73)
    ensures ClassifyReadFailure(c).status.TerminalFailure?
  {
  }
}
