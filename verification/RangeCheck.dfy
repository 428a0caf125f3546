/** The check before a run: does the source have every block of every range? */
module RangeCheck {
  import opened Types
  import opened CheckpointConfig
  import opened CheckpointBuilder

  /** Ways to read a source: one block, or a whole range (`None`: missing, or an error). */
  datatype Reader = Reader(get: nat -> Option<RootInfo>, getRange: (nat, nat) -> Option<seq<RootInfo>>)

  /** The source answers for the range, with as many blocks as the range has. */
  ghost predicate Present(reader: Reader, r: RangeType)
    requires RangeOk(r)
  {
    match r
    case Genesis(height) => reader.get(height).Some?
    case Regular(range) =>
      && reader.getRange(range.heightStart, range.heightEnd).Some?
      && |reader.getRange(range.heightStart, range.heightEnd).value| == BlockCount(range)
  }

  method ValidateRanges(reader: Reader, ranges: seq<RangeType>) returns (ok: bool)
    requires forall i :: 0 <= i < |ranges| ==> RangeOk(ranges[i])
    ensures ok <==> forall i :: 0 <= i < |ranges| ==> Present(reader, ranges[i])
  {
    var errors := 0;
    var i := 0;
    while i < |ranges|
      invariant 0 <= i <= |ranges| && errors >= 0
      invariant errors == 0 <==> forall k :: 0 <= k < i ==> Present(reader, ranges[k])
    {
      match ranges[i] {
        case Genesis(height) =>
          if reader.get(height).None? {
            errors := errors + 1;
          }
        case Regular(r) =>
          var found := reader.getRange(r.heightStart, r.heightEnd);
          if found.None? {
            assert !Present(reader, ranges[i]);
            return false;
          }
          if |found.value| != BlockCount(r) {
            errors := errors + 1;
          }
      }
      i := i + 1;
    }
    ok := errors == 0;
  }
}
