/** Checkpoint ranges and the configuration the builder accepts. */
module CheckpointConfig {
  import opened Types

  datatype CheckpointRange = CheckpointRange(heightStart: nat, heightEnd: nat, interval: nat)

  datatype RangeType = Genesis(height: nat) | Regular(range: CheckpointRange) {
    function HeightStart(): nat { if Genesis? then height else range.heightStart }
    function HeightEnd(): nat { if Genesis? then height else range.heightEnd }
  }

  /** Numbers come out of a u64 parser. */
  ghost predicate Parsed(ranges: seq<RangeType>) {
    forall r :: r in ranges ==> r.HeightStart() <= U64_MAX && r.HeightEnd() <= U64_MAX
  }

  // ---- what is meant ------------------------------------------------------------------------

  /** Number of blocks of a range. */
  function Blocks(r: CheckpointRange): nat
    requires r.heightStart <= r.heightEnd
  {
    r.heightEnd - r.heightStart + 1
  }

  ghost predicate RangeOk(r: RangeType) {
    r.Regular? ==>
      r.range.heightStart <= r.range.heightEnd && r.range.interval > 0 && Blocks(r.range) % r.range.interval == 0
  }

  ghost predicate Joined(prev: RangeType, next: RangeType) {
    next.Regular? && prev.HeightEnd() + 1 == next.HeightStart()
  }

  /** At least one range, only the first a genesis, each evenly divided, each starting right
      after the one before. */
  ghost predicate WellFormed(ranges: seq<RangeType>) {
    && ranges != []
    && (forall i :: 0 <= i < |ranges| ==> RangeOk(ranges[i]))
    && (forall i, j :: 0 <= i < j < |ranges| && j == i + 1 ==> Joined(ranges[i], ranges[j]))
  }

  // ---- what is checked ----------------------------------------------------------------------

  /** `height_end - height_start + 1` on u64. */
  function BlockCount(r: CheckpointRange): nat
    requires r.heightStart <= r.heightEnd
  {
    WrappingInc(r.heightEnd - r.heightStart)
  }

  predicate RangeChecks(r: RangeType) {
    r.Regular? ==>
      r.range.heightStart <= r.range.heightEnd && r.range.interval > 0 && BlockCount(r.range) % r.range.interval == 0
  }

  predicate JoinChecks(prev: RangeType, next: RangeType) {
    match (prev, next)
    case (Genesis(g), Regular(r)) => WrappingInc(g) == r.heightStart
    case (Regular(p), Regular(r)) => p.heightEnd < r.heightStart && p.heightEnd + 1 == r.heightStart
    case _ => false
  }

  /** The wrap-around of a genesis at the last u64. */
  predicate GenesisWraps(ranges: seq<RangeType>) {
    |ranges| > 1 && ranges[0] == Genesis(U64_MAX)
  }

  /** A range over all of u64, whose block count wraps to zero. */
  predicate SpansAll(r: RangeType) {
    r.Regular? && r.range.heightStart == 0 && r.range.heightEnd == U64_MAX
  }

  /** The two validation passes. */
  method ValidateCheckpointRanges(ranges: seq<RangeType>) returns (ok: bool)
    ensures ok <==> Validated(ranges)
  {
    if ranges == [] {
      return false;
    }
    var i := 0;
    while i < |ranges|
      invariant 0 <= i <= |ranges|
      invariant forall k :: 0 <= k < i ==> RangeChecks(ranges[k]) && (k > 0 ==> ranges[k].Regular?)
    {
      if i > 0 && ranges[i].Genesis? {
        return false;
      }
      if ranges[i].Regular? {
        var range := ranges[i].range;
        if range.heightStart > range.heightEnd || range.interval == 0 {
          return false;
        }
        if BlockCount(range) % range.interval != 0 {
          return false;
        }
      }
      i := i + 1;
    }
    i := 1;
    while i < |ranges|
      invariant 1 <= i <= |ranges|
      invariant forall k :: 1 <= k < i ==> JoinChecks(ranges[k - 1], ranges[k])
    {
      match (ranges[i - 1], ranges[i]) {
        case (Genesis(g), Regular(r)) =>
          if WrappingInc(g) != r.heightStart {
            return false;
          }
        case (Regular(prev), Regular(curr)) =>
          if curr.heightStart <= prev.heightEnd {
            return false;
          }
          if prev.heightEnd + 1 != curr.heightStart {
            return false;
          }
        case _ =>
          return false;
      }
      i := i + 1;
    }
    ok := true;
  }

  predicate Validated(ranges: seq<RangeType>) {
    && ranges != []
    && (forall i :: 0 <= i < |ranges| ==> RangeChecks(ranges[i]) && (i > 0 ==> ranges[i].Regular?))
    && (forall i :: 1 <= i < |ranges| ==> JoinChecks(ranges[i - 1], ranges[i]))
  }

  // ---- the configuration --------------------------------------------------------------------

  /** The command line once its texts are parsed. */
  datatype Args = Args(startingDigest: Option<H256>, ranges: Option<seq<RangeType>>, dryRun: bool,
      chainKey: Option<nat>)

  datatype Config = Config(startingDigest: Option<H256>, ranges: seq<RangeType>) {
    function StartingBlock(): nat
      requires ranges != []
    {
      ranges[0].HeightStart()
    }

    function EndBlock(): nat
      requires ranges != []
    {
      ranges[|ranges| - 1].HeightEnd()
    }
  }

  function FromCommon(args: Args): Option<Config> {
    match args.ranges
    case Some(ranges) => if Validated(ranges) then WithDigest(args, ranges) else None
    case None => if args.dryRun then WithDigest(args, []) else None
  }

  function WithDigest(args: Args, ranges: seq<RangeType>): Option<Config> {
    var startingBlock := if ranges == [] then 0 else ranges[0].HeightStart();
    match args.startingDigest
    case Some(digest) =>
      if startingBlock == 0 then None
      else if ranges != [] && ranges[0].Genesis? then None
      else if args.chainKey.None? then None
      else Some(Config(Some(digest), ranges))
    case None =>
      if ranges != [] && ranges[0].Regular? then None else Some(Config(None, ranges))
  }

  /** Without ranges there is nothing to build: accepted exactly in a dry run without a digest, and
      then as an empty configuration. */
  lemma NoRangesIff(args: Args)
    requires args.ranges.None?
    ensures FromCommon(args) ==
            if args.dryRun && args.startingDigest.None? then Some(Config(None, [])) else None
  {
  }

  /** What the builder may rely on. */
  ghost predicate Usable(cfg: Config) {
    && WellFormed(cfg.ranges)
    && (cfg.startingDigest.Some? <==> cfg.ranges[0].Regular?)
    && (cfg.startingDigest.Some? ==> cfg.StartingBlock() >= 1)
  }

  /** Validation means what it says, but for the two wrap-arounds. */
  lemma ValidatedIffWellFormed(ranges: seq<RangeType>)
    requires Parsed(ranges) && !GenesisWraps(ranges) && (forall r :: r in ranges ==> !SpansAll(r))
    ensures Validated(ranges) <==> WellFormed(ranges)
  {
    assert forall i :: 0 <= i < |ranges| ==> ranges[i] in ranges;
    assert forall i :: 0 <= i < |ranges| ==> (RangeChecks(ranges[i]) <==> RangeOk(ranges[i]));
    if Validated(ranges) {
      forall i, j | 0 <= i < j < |ranges| && j == i + 1 ensures Joined(ranges[i], ranges[j]) {
        assert JoinChecks(ranges[j - 1], ranges[j]);
        assert i > 0 ==> ranges[i].Regular?;
      }
    }
    if WellFormed(ranges) {
      forall i | 1 <= i < |ranges| ensures JoinChecks(ranges[i - 1], ranges[i]) {
        assert Joined(ranges[i - 1], ranges[i]);
        assert i > 1 ==> Joined(ranges[i - 2], ranges[i - 1]);
      }
      forall i | 0 < i < |ranges| ensures ranges[i].Regular? {
        assert Joined(ranges[i - 1], ranges[i]);
      }
    }
  }

  /** Past the first range of a validated or well-formed list, no range starts at zero. */
  lemma LaterRangesStartAboveZero(ranges: seq<RangeType>, i: nat)
    requires (Validated(ranges) && !GenesisWraps(ranges)) || WellFormed(ranges)
    requires 0 < i < |ranges|
    ensures ranges[i].HeightStart() > 0
  {
    assert Validated(ranges) ==> JoinChecks(ranges[i - 1], ranges[i]);
    assert WellFormed(ranges) ==> Joined(ranges[i - 1], ranges[i]);
    assert Validated(ranges) && i > 1 ==> ranges[i - 1].Regular?;
  }

  /** A list from block 0 on, as it may follow a genesis at the last u64: well-formed, or the one
      range over all of u64, whose wrapped block count passes for any interval. */
  ghost predicate FromZero(ranges: seq<RangeType>) {
    && ranges != [] && ranges[0].Regular? && ranges[0].HeightStart() == 0
    && (WellFormed(ranges) || (|ranges| == 1 && SpansAll(ranges[0]) && ranges[0].range.interval > 0))
  }

  lemma ValidatedTail(ranges: seq<RangeType>)
    requires |ranges| > 1
    ensures Validated(ranges) <==>
            Validated(ranges[1..]) && RangeChecks(ranges[0]) && ranges[1].Regular? && JoinChecks(ranges[0], ranges[1])
  {
    var tail := ranges[1..];
    assert forall i :: 0 <= i < |tail| ==> tail[i] == ranges[i + 1];
    if Validated(ranges) {
      forall i | 0 <= i < |tail| ensures RangeChecks(tail[i]) && (i > 0 ==> tail[i].Regular?) {
        assert RangeChecks(ranges[i + 1]);
      }
      forall i | 1 <= i < |tail| ensures JoinChecks(tail[i - 1], tail[i]) {
        assert JoinChecks(ranges[i + 1 - 1], ranges[i + 1]);
      }
    }
    if Validated(tail) && RangeChecks(ranges[0]) && ranges[1].Regular? && JoinChecks(ranges[0], ranges[1]) {
      forall i | 0 <= i < |ranges| ensures RangeChecks(ranges[i]) && (i > 0 ==> ranges[i].Regular?) {
        if i > 0 { assert RangeChecks(tail[i - 1]); }
      }
      forall i | 1 <= i < |ranges| ensures JoinChecks(ranges[i - 1], ranges[i]) {
        if i > 1 { assert JoinChecks(tail[i - 1 - 1], tail[i - 1]); }
      }
    }
  }

  /** A range that another one follows ends below the last u64. */
  lemma FirstEndsBelowTheLast(ranges: seq<RangeType>)
    requires (Validated(ranges) && !GenesisWraps(ranges)) || WellFormed(ranges)
    requires |ranges| > 1 && Parsed(ranges)
    ensures ranges[0].HeightEnd() < U64_MAX
  {
    assert ranges[1] in ranges && ranges[0] in ranges;
    assert Validated(ranges) ==> JoinChecks(ranges[1 - 1], ranges[1]);
    assert WellFormed(ranges) ==> Joined(ranges[0], ranges[1]);
  }

  /** A validated list has no range over all of u64 but as its only range. */
  lemma SpanningIsAlone(ranges: seq<RangeType>, i: nat)
    requires Validated(ranges) && Parsed(ranges) && !GenesisWraps(ranges) && i < |ranges| && SpansAll(ranges[i])
    ensures |ranges| == 1
  {
    if i > 0 {
      LaterRangesStartAboveZero(ranges, i);
    } else if |ranges| > 1 {
      FirstEndsBelowTheLast(ranges);
    }
  }

  lemma FromZeroIffValidated(ranges: seq<RangeType>)
    requires Parsed(ranges) && ranges != [] && ranges[0].Regular? && ranges[0].HeightStart() == 0
    ensures Validated(ranges) <==> FromZero(ranges)
  {
    if forall r :: r in ranges ==> !SpansAll(r) {
      ValidatedIffWellFormed(ranges);
      assert ranges[0] in ranges;
    } else {
      var r :| r in ranges && SpansAll(r);
      var i: nat :| i < |ranges| && ranges[i] == r;
      SpanningIffValidated(ranges, i);
    }
  }

  lemma SpanningIffValidated(ranges: seq<RangeType>, i: nat)
    requires Parsed(ranges) && ranges != [] && ranges[0].Regular? && ranges[0].HeightStart() == 0
    requires i < |ranges| && SpansAll(ranges[i])
    ensures Validated(ranges) <==> FromZero(ranges)
  {
    if |ranges| == 1 {
      AloneIsBoth(ranges);
    } else {
      if Validated(ranges) { SpanningIsAlone(ranges, i); }
      if WellFormed(ranges) { SpanningWellFormed(ranges, i); }
    }
  }

  lemma AloneIsBoth(ranges: seq<RangeType>)
    requires Parsed(ranges) && |ranges| == 1 && SpansAll(ranges[0])
    ensures Validated(ranges) <==> FromZero(ranges)
  {
  }

  lemma SpanningWellFormed(ranges: seq<RangeType>, i: nat)
    requires WellFormed(ranges) && Parsed(ranges) && i < |ranges| && SpansAll(ranges[i])
    ensures |ranges| == 1 && Validated(ranges)
  {
    if i > 0 {
      LaterRangesStartAboveZero(ranges, i);
    } else if |ranges| > 1 {
      FirstEndsBelowTheLast(ranges);
    }
  }

  /** The wrap-around of a genesis at the last u64: accepted exactly in front of a list from zero. */
  lemma WrappedGenesisIff(ranges: seq<RangeType>)
    requires GenesisWraps(ranges) && Parsed(ranges)
    ensures Validated(ranges) <==> FromZero(ranges[1..])
  {
    var tail := ranges[1..];
    ValidatedTail(ranges);
    assert forall r :: r in tail ==> r in ranges;
    if tail[0].Regular? && tail[0].HeightStart() == 0 { FromZeroIffValidated(tail); }
  }

  lemma UnwrappedIff(args: Args)
    requires args.ranges.Some? && Parsed(args.ranges.value) && !GenesisWraps(args.ranges.value)
    ensures FromCommon(args).Some? <==>
            && Usable(Config(args.startingDigest, args.ranges.value))
            && (args.startingDigest.Some? ==> args.chainKey.Some?)
  {
    var ranges := args.ranges.value;
    if forall r :: r in ranges ==> !SpansAll(r) {
      ValidatedIffWellFormed(ranges);
    } else {
      var r :| r in ranges && SpansAll(r);
      var i :| 0 <= i < |ranges| && ranges[i] == r;
      if i > 0 && (Validated(ranges) || WellFormed(ranges)) {
        LaterRangesStartAboveZero(ranges, i);
        assert false;
      }
    }
  }

  /** With ranges given, a configuration is accepted exactly when it is usable and names its chain
      if it resumes, or when it is the wrapped genesis in front of a list from zero, without a
      digest to resume from. */
  lemma AcceptedIffUsable(args: Args)
    requires args.ranges.Some? && Parsed(args.ranges.value)
    ensures var cfg := Config(args.startingDigest, args.ranges.value);
            && FromCommon(args) in {None, Some(cfg)}
            && (FromCommon(args).Some? <==>
                if GenesisWraps(cfg.ranges) then FromZero(cfg.ranges[1..]) && cfg.startingDigest.None?
                else Usable(cfg) && (args.startingDigest.Some? ==> args.chainKey.Some?))
  {
    if GenesisWraps(args.ranges.value) {
      WrappedGenesisIff(args.ranges.value);
    } else {
      UnwrappedIff(args);
    }
  }

  /** Accepted although it is not usable: the genesis wrap-around. */
  lemma WrappedGenesisIsAccepted(e: nat)
    requires e < U64_MAX
    ensures var ranges := [Genesis(U64_MAX), Regular(CheckpointRange(0, e, 1))];
            FromCommon(Args(None, Some(ranges), false, None)).Some? && !WellFormed(ranges)
  {
    var ranges := [Genesis(U64_MAX), Regular(CheckpointRange(0, e, 1))];
    assert RangeChecks(ranges[1]) && JoinChecks(ranges[0], ranges[1]);
    assert !Joined(ranges[0], ranges[1]);
  }

  /** `starting_block - 1` never underflows where it is used, whatever was accepted. */
  lemma AnchorNeverUnderflows(args: Args)
    requires FromCommon(args).Some? && FromCommon(args).value.startingDigest.Some?
    ensures FromCommon(args).value.ranges != [] && FromCommon(args).value.StartingBlock() >= 1
  {
  }
}
