/**
 * The classification of contract-call payloads by the byte size of their hex-encoded
 * `function_parameters`, against a 5 KiB threshold.
 */
module ParamSize {
  import opened Records

  type byte = b: int | 0 <= b < 256

  /** The threshold: payloads of more than 5 * 1024 bytes are "over". */
  const FiveKiB: nat := 5 * 1024

  predicate IsHexDigit(c: char) {
    '0' <= c <= '9' || 'a' <= c <= 'f' || 'A' <= c <= 'F'
  }

  /** Every character is one of `0-9a-fA-F` (vacuously true of the empty string). */
  predicate AllHex(h: string) {
    forall i :: 0 <= i < |h| ==> IsHexDigit(h[i])
  }

  function HexValue(c: char): (v: nat)
    requires IsHexDigit(c)
    ensures v < 16
  {
    if '0' <= c <= '9' then c as int - '0' as int
    else if 'a' <= c <= 'f' then c as int - 'a' as int + 10
    else c as int - 'A' as int + 10
  }

  /** The lower-case digit of a nibble. */
  function HexDigit(n: nat): (c: char)
    requires n < 16
    ensures IsHexDigit(c) && c != 'x' && c != 'X'
  {
    if n < 10 then (48 + n) as char else (87 + n) as char
  }

  lemma HexDigitValue(n: nat)
    requires n < 16
    ensures HexValue(HexDigit(n)) == n
  {
  }

  /** Removes one leading `0x` or `0X`, if present. */
  function StripHexPrefix(h: string): (r: string)
    ensures h == r || h == "0x" + r || h == "0X" + r
    ensures |r| <= |h|
  {
    if |h| >= 2 && h[0] == '0' && (h[1] == 'x' || h[1] == 'X') then h[2..] else h
  }

  /** Exactly one prefix is removed: whatever follows it is kept as is, even another `0x`. */
  lemma StripHexPrefixOnce(t: string)
    ensures StripHexPrefix("0x" + t) == t
    ensures StripHexPrefix("0X" + t) == t
    ensures |t| >= 1 && t[0] != '0' ==> StripHexPrefix(t) == t
  {
    assert ("0x" + t)[2..] == t;
    assert ("0X" + t)[2..] == t;
  }

  /** The bytes of an even-length all-hex string, two digits per byte. */
  function DecodePairs(h: string): (b: seq<byte>)
    requires AllHex(h) && |h| % 2 == 0
    ensures 2 * |b| == |h|
    decreases |h|
  {
    if h == [] then [] else [16 * HexValue(h[0]) + HexValue(h[1])] + DecodePairs(h[2..])
  }

  /**
   * `bytes.fromhex` on a string already known to hold only hex digits: an odd number
   * of digits raises (`None`), an even number decodes.
   */
  function FromHex(h: string): (r: Option<seq<byte>>)
    requires AllHex(h)
    ensures r.Some? <==> |h| % 2 == 0
    ensures r.Some? ==> 2 * |r.value| == |h|
  {
    if |h| % 2 == 1 then None else Some(DecodePairs(h))
  }

  /** The lower-case hex encoding of a byte string. */
  function ToHex(b: seq<byte>): (h: string)
    ensures |h| == 2 * |b| && AllHex(h)
    ensures forall i :: 0 <= i < |h| ==> h[i] != 'x' && h[i] != 'X'
  {
    if b == [] then [] else [HexDigit(b[0] / 16), HexDigit(b[0] % 16)] + ToHex(b[1..])
  }

  lemma {:induction false} DecodePairsToHex(b: seq<byte>)
    ensures DecodePairs(ToHex(b)) == b
    decreases |b|
  {
    if b != [] {
      var h := ToHex(b);
      DecodePairsToHex(b[1..]);
      HexDigitValue(b[0] / 16);
      HexDigitValue(b[0] % 16);
      assert h[0] == HexDigit(b[0] / 16) && h[1] == HexDigit(b[0] % 16);
      assert h[2..] == ToHex(b[1..]);
      assert 16 * (b[0] / 16) + b[0] % 16 == b[0];
      assert DecodePairs(h) == [b[0]] + b[1..];
    }
  }

  /** Decoding undoes encoding. */
  lemma FromHexToHex(b: seq<byte>)
    ensures FromHex(ToHex(b)) == Some(b)
  {
    DecodePairsToHex(b);
  }

  /** What one contract result contributes. */
  datatype Outcome =
    | Unsized           // counted under, no size recorded (missing, empty or not hex)
    | Measured(size: nat) // size recorded, counted over or under by the threshold
    | Dropped           // `bytes.fromhex` raised: nothing counted

  /** The classification of one `function_parameters` value. */
  function Classify(p: Option<string>): (r: Outcome)
    ensures r.Unsized? <==> Falsy(p) || !AllHex(StripHexPrefix(p.value))
    ensures r.Dropped? <==> !Falsy(p) && AllHex(StripHexPrefix(p.value)) && |StripHexPrefix(p.value)| % 2 == 1
    ensures r.Measured? ==> 2 * r.size == |StripHexPrefix(p.value)|
  {
    if p.None? || p.value == "" then Unsized
    else
      var h := StripHexPrefix(p.value);
      if !AllHex(h) then Unsized
      else
        match FromHex(h)
        case None => Dropped
        case Some(bytes) => Measured(|bytes|)
  }

  lemma ClassifyStripped(s: string, b: seq<byte>)
    requires s != "" && StripHexPrefix(s) == ToHex(b)
    ensures Classify(Some(s)) == Measured(|b|)
  {
    FromHexToHex(b);
  }

  /** A payload written as hex after a `0x` or `0X` prefix measures its byte length. */
  lemma ClassifyPrefixed(b: seq<byte>)
    ensures Classify(Some("0x" + ToHex(b))) == Measured(|b|)
    ensures Classify(Some("0X" + ToHex(b))) == Measured(|b|)
  {
    var h := ToHex(b);
    StripHexPrefixOnce(h);
    ClassifyStripped("0x" + h, b);
    ClassifyStripped("0X" + h, b);
  }

  /** A payload written as bare hex measures its byte length; an empty one is unsized. */
  lemma ClassifyBare(b: seq<byte>)
    ensures Classify(Some(ToHex(b))) == if b == [] then Unsized else Measured(|b|)
  {
    var h := ToHex(b);
    if b != [] {
      assert h[1] != 'x' && h[1] != 'X';
      assert StripHexPrefix(h) == h;
      ClassifyStripped(h, b);
    }
  }

  /** Missing and empty payloads are unsized; an empty payload after the prefix measures zero. */
  lemma ClassifyEmptyExamples()
    ensures Classify(None) == Unsized
    ensures Classify(Some("")) == Unsized
    ensures Classify(Some("0x")) == Measured(0)
  {
    assert StripHexPrefix("0x") == "";
  }

  /** Non-hex digits after the prefix, including a second prefix, leave a payload unsized. */
  lemma ClassifyNonHexExamples()
    ensures Classify(Some("0xZZ")) == Unsized
    ensures Classify(Some("0x0x12")) == Unsized
  {
    assert StripHexPrefix("0xZZ") == "ZZ" && !IsHexDigit('Z');
    assert StripHexPrefix("0x0x12") == "0x12" && !IsHexDigit("0x12"[1]);
  }

  /** An odd number of hex digits is dropped; an even number measures half of it. */
  lemma ClassifyHexExamples()
    ensures Classify(Some("abc")) == Dropped
    ensures Classify(Some("0xab12")) == Measured(2)
  {
    assert StripHexPrefix("abc") == "abc" && AllHex("abc");
    assert StripHexPrefix("0xab12") == "ab12" && AllHex("ab12");
  }

  /** One fetched contract result: the fetch failed, or it carried `function_parameters`. */
  datatype ContractResult = FetchFailed | Fetched(functionParameters: Option<string>)

  /** The over/under counters and the recorded sizes. */
  datatype SizeReport = SizeReport(over: nat, under: nat, sizes: seq<nat>)

  /** The effect of one contract result on the report. */
  function Record(report: SizeReport, c: ContractResult): SizeReport {
    match c
    case FetchFailed => report
    case Fetched(p) =>
      match Classify(p)
      case Unsized => report.(under := report.under + 1)
      case Dropped => report
      case Measured(n) =>
        if n > FiveKiB then report.(over := report.over + 1, sizes := report.sizes + [n])
        else report.(under := report.under + 1, sizes := report.sizes + [n])
  }

  /** The report after the results in order. */
  function Report(results: seq<ContractResult>): SizeReport {
    if results == [] then SizeReport(0, 0, [])
    else Record(Report(results[..|results| - 1]), results[|results| - 1])
  }

  /** Whether a result moves one of the two counters. */
  predicate Counted(c: ContractResult) {
    c.Fetched? && !Classify(c.functionParameters).Dropped?
  }

  function CountCounted(results: seq<ContractResult>): (n: nat)
    ensures n <= |results|
  {
    if results == [] then 0
    else CountCounted(results[..|results| - 1]) + (if Counted(results[|results| - 1]) then 1 else 0)
  }

  function CountAbove(sizes: seq<nat>, threshold: nat): (n: nat)
    ensures n <= |sizes|
  {
    if sizes == [] then 0
    else CountAbove(sizes[..|sizes| - 1], threshold) + (if sizes[|sizes| - 1] > threshold then 1 else 0)
  }

  /** The decoded size of a result's payload, when it has one. */
  function SizeOf(c: ContractResult): seq<nat> {
    match c
    case Fetched(p) => (match Classify(p) case Measured(n) => [n] case _ => [])
    case FetchFailed => []
  }

  /** The decoded sizes of the measured payloads, in the order of the results. */
  function MeasuredSizes(results: seq<ContractResult>): seq<nat> {
    if results == [] then []
    else MeasuredSizes(results[..|results| - 1]) + SizeOf(results[|results| - 1])
  }

  /**
   * Each result moves at most one counter; over counts exactly the recorded sizes above
   * the threshold; every recorded size comes from a measured payload.
   */
  lemma {:induction false} ReportAccounting(results: seq<ContractResult>)
    ensures Report(results).over + Report(results).under == CountCounted(results)
    ensures Report(results).over + Report(results).under <= |results|
    ensures Report(results).over == CountAbove(Report(results).sizes, FiveKiB)
    ensures |Report(results).sizes| <= Report(results).over + Report(results).under
    decreases |results|
  {
    if results != [] {
      var init := results[..|results| - 1];
      ReportAccounting(init);
      var prev := Report(init);
      var sizes := Report(results).sizes;
      if sizes != prev.sizes {
        assert sizes[..|sizes| - 1] == prev.sizes;
      }
    }
  }

  lemma RecordSizes(report: SizeReport, c: ContractResult)
    ensures Record(report, c).sizes == report.sizes + SizeOf(c)
  {
  }

  /** The recorded sizes are exactly the decoded sizes of the measured payloads, in order. */
  lemma {:induction false} ReportSizes(results: seq<ContractResult>)
    ensures Report(results).sizes == MeasuredSizes(results)
    decreases |results|
  {
    if results != [] {
      var init, last := results[..|results| - 1], results[|results| - 1];
      ReportSizes(init);
      RecordSizes(Report(init), last);
    }
  }

  /** A single payload of `b` bytes counts as over exactly when it exceeds 5 KiB. */
  lemma ThresholdBoundary(b: seq<byte>)
    ensures Report([Fetched(Some("0x" + ToHex(b)))]) ==
      if |b| > FiveKiB then SizeReport(1, 0, [|b|]) else SizeReport(0, 1, [|b|])
  {
    ClassifyPrefixed(b);
    var results := [Fetched(Some("0x" + ToHex(b)))];
    assert results[..0] == [];
  }

  /** The largest recorded size, if any size was recorded. */
  function MaxOf(sizes: seq<nat>): (m: Option<nat>)
    ensures m.None? <==> sizes == []
    ensures m.Some? ==> m.value in sizes && forall x :: x in sizes ==> x <= m.value
  {
    if sizes == [] then None
    else
      match MaxOf(sizes[..|sizes| - 1])
      case None => Some(sizes[|sizes| - 1])
      case Some(m) =>
        assert sizes == sizes[..|sizes| - 1] + [sizes[|sizes| - 1]];
        Some(if sizes[|sizes| - 1] > m then sizes[|sizes| - 1] else m)
  }

  /**
   * The classification and counting loop over the fetched contract results, followed by
   * the maximum of the recorded sizes.
   */
  method CountParamSizes(results: seq<ContractResult>)
    returns (over: nat, under: nat, sizes: seq<nat>, maxSize: Option<nat>)
    ensures SizeReport(over, under, sizes) == Report(results)
    ensures sizes == MeasuredSizes(results)
    ensures maxSize == MaxOf(sizes)
  {
    over, under, sizes := 0, 0, [];
    for i := 0 to |results|
      invariant SizeReport(over, under, sizes) == Report(results[..i])
    {
      assert results[..i + 1][..i] == results[..i];
      match results[i]
      case FetchFailed =>
      case Fetched(p) =>
        if p.None? || p.value == "" {
          under := under + 1;
          continue;
        }
        var h := StripHexPrefix(p.value);
        if AllHex(h) {
          match FromHex(h)
          case None =>
          case Some(bytes) =>
            var size := |bytes|;
            sizes := sizes + [size];
            if size > FiveKiB {
              over := over + 1;
            } else {
              under := under + 1;
            }
        } else {
          under := under + 1;
        }
    }
    assert results[..|results|] == results;
    ReportSizes(results);
    maxSize := MaxOf(sizes);
  }
}
