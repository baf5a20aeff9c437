/** The integer part of the pair statistics counter (get_stats): one pass over
    a combined pair stream counting intra- and inter-reference records and
    intra-reference records beyond four insert-size thresholds, valid pairs in
    total and per reference sequence, and the assembly length. */
module PairStats {
  import opened Sam

  /** Insert-size thresholds of the intra-reference counts, in base pairs. */
  const Threshold1kb: int := 1000
  const Threshold10kb: int := 10000
  const Threshold15kb: int := 15000
  const Threshold20kb: int := 20000

  /** The mate lies on the same reference as the read, and that reference exists. */
  predicate IsIntra(r: Record) {
    r.mtid == r.tid && r.mtid != -1
  }

  /** |isize|; the template-length range keeps this inside 32 bits. */
  function AbsInsertSize(r: Record): (n: nat)
    ensures n <= Int32Max
    ensures n == r.isize || n == -r.isize
  {
    if r.isize >= 0 then r.isize else -r.isize
  }

  /** A valid pair is counted once, on its READ1 record, when it is a proper pair. */
  predicate IsValidPair(r: Record) {
    Has(r.flag, FlagRead1) && Has(r.flag, FlagProperPair)
  }

  /** The classes of records the counter keeps a tally of. */
  datatype Criterion =
    | Every
    | Intra
    | Inter
    | IntraAtLeast(bp: int)
    | ValidPair
    | ValidPairOn(seqIndex: int)
    | ValidPairBelow(targets: int)

  predicate Meets(r: Record, c: Criterion) {
    match c
    case Every => true
    case Intra => IsIntra(r)
    case Inter => !IsIntra(r)
    case IntraAtLeast(bp) => IsIntra(r) && AbsInsertSize(r) >= bp
    case ValidPair => IsValidPair(r)
    case ValidPairOn(t) => IsValidPair(r) && r.tid == t
    case ValidPairBelow(n) => IsValidPair(r) && 0 <= r.tid < n
  }

  /** Number of records of s that meet c. */
  function Count(s: seq<Record>, c: Criterion): (n: nat)
    ensures n <= |s|
    decreases |s|
  {
    if s == [] then 0
    else Count(s[..|s| - 1], c) + (if Meets(s[|s| - 1], c) then 1 else 0)
  }

  lemma CountSnoc(s: seq<Record>, r: Record, c: Criterion)
    ensures Count(s + [r], c) == Count(s, c) + (if Meets(r, c) then 1 else 0)
  {
    assert (s + [r])[..|s|] == s;
  }

  /** Every record is counted in exactly one of intra and inter. */
  lemma {:induction false} IntraInterPartition(s: seq<Record>)
    ensures Count(s, Intra) + Count(s, Inter) == |s|
    ensures Count(s, Every) == |s|
    decreases |s|
  {
    if s != [] {
      IntraInterPartition(s[..|s| - 1]);
    }
  }

  /** A criterion implied by another counts at least as many records. */
  lemma {:induction false} CountMonotone(s: seq<Record>, c1: Criterion, c2: Criterion)
    requires forall r :: Meets(r, c1) ==> Meets(r, c2)
    ensures Count(s, c1) <= Count(s, c2)
    decreases |s|
  {
    if s != [] {
      CountMonotone(s[..|s| - 1], c1, c2);
    }
  }

  /** The threshold counts are nested inside one another and inside intra. */
  lemma ThresholdsNested(s: seq<Record>)
    ensures Count(s, IntraAtLeast(Threshold20kb)) <= Count(s, IntraAtLeast(Threshold15kb))
    ensures Count(s, IntraAtLeast(Threshold15kb)) <= Count(s, IntraAtLeast(Threshold10kb))
    ensures Count(s, IntraAtLeast(Threshold10kb)) <= Count(s, IntraAtLeast(Threshold1kb))
    ensures Count(s, IntraAtLeast(Threshold1kb)) <= Count(s, Intra)
  {
    CountMonotone(s, IntraAtLeast(Threshold20kb), IntraAtLeast(Threshold15kb));
    CountMonotone(s, IntraAtLeast(Threshold15kb), IntraAtLeast(Threshold10kb));
    CountMonotone(s, IntraAtLeast(Threshold10kb), IntraAtLeast(Threshold1kb));
    CountMonotone(s, IntraAtLeast(Threshold1kb), Intra);
  }

  /** Adding one more reference sequence to the range adds its own bin. */
  lemma {:induction false} BelowSplit(s: seq<Record>, n: nat)
    ensures Count(s, ValidPairBelow(n + 1)) == Count(s, ValidPairBelow(n)) + Count(s, ValidPairOn(n))
    decreases |s|
  {
    if s != [] {
      BelowSplit(s[..|s| - 1], n);
    }
  }

  lemma {:induction false} BelowNothing(s: seq<Record>)
    ensures Count(s, ValidPairBelow(0)) == 0
    decreases |s|
  {
    if s != [] {
      BelowNothing(s[..|s| - 1]);
    }
  }

  function Sum(xs: seq<int>): int
    decreases |xs|
  {
    if xs == [] then 0 else Sum(xs[..|xs| - 1]) + xs[|xs| - 1]
  }

  /** The per-sequence bins add up to the valid pairs whose reference index
      is in the table, and so never exceed the total. */
  lemma {:induction false} BinsBoundedByTotal(s: seq<Record>, bins: seq<int>)
    requires forall t :: 0 <= t < |bins| ==> bins[t] == Count(s, ValidPairOn(t))
    ensures Sum(bins) == Count(s, ValidPairBelow(|bins|))
    ensures Sum(bins) <= Count(s, ValidPair)
    decreases |bins|
  {
    if bins != [] {
      var n := |bins| - 1;
      BinsBoundedByTotal(s, bins[..n]);
      BelowSplit(s, n);
      assert bins == bins[..n] + [bins[n]];
    } else {
      BelowNothing(s);
    }
    CountMonotone(s, ValidPairBelow(|bins|), ValidPair);
  }

  /** Halving keeps the nesting of the threshold counts, and the halves of
      intra and inter add up to the halved total or one less. */
  lemma HalvedCounts(s: seq<Record>)
    ensures Count(s, IntraAtLeast(Threshold20kb)) / 2 <= Count(s, IntraAtLeast(Threshold15kb)) / 2
    ensures Count(s, IntraAtLeast(Threshold15kb)) / 2 <= Count(s, IntraAtLeast(Threshold10kb)) / 2
    ensures Count(s, IntraAtLeast(Threshold10kb)) / 2 <= Count(s, IntraAtLeast(Threshold1kb)) / 2
    ensures Count(s, IntraAtLeast(Threshold1kb)) / 2 <= Count(s, Intra) / 2
    ensures |s| / 2 - 1 <= Count(s, Intra) / 2 + Count(s, Inter) / 2 <= |s| / 2
  {
    ThresholdsNested(s);
    IntraInterPartition(s);
  }

  /** What the tool reports, before formatting. */
  datatype Report = Report(
    all: int,
    intra: int,
    intra1kb: int,
    intra10kb: int,
    intra15kb: int,
    intra20kb: int,
    inter: int,
    totalValidPairs: int,
    totalAssemblyLength: int,
    validPairsPerSeq: seq<int>,
    sequenceLengthBp: seq<int>)

  /** The lengths column of the reference table. */
  function TargetLengths(header: seq<Target>): (lens: seq<int>)
    ensures |lens| == |header|
    ensures forall i :: 0 <= i < |header| ==> lens[i] == header[i].len
  {
    seq(|header|, i requires 0 <= i < |header| => header[i].len)
  }

  /** The assembly-length loop: total length and per-sequence length array. */
  method AssemblyLengths(header: seq<Target>) returns (total: int, lengths: seq<int>)
    ensures lengths == TargetLengths(header)
    ensures total == Sum(TargetLengths(header))
  {
    var lengthBp := new int[|header|](_ => 0);
    total := 0;
    for i := 0 to |header|
      invariant total == Sum(TargetLengths(header)[..i])
      invariant forall j :: 0 <= j < i ==> lengthBp[j] == header[j].len
    {
      assert TargetLengths(header)[..i + 1] == TargetLengths(header)[..i] + [header[i].len];
      total := total + header[i].len;
      lengthBp[i] := header[i].len;
    }
    assert TargetLengths(header)[..|header|] == TargetLengths(header);
    lengths := lengthBp[..];
  }

  /** The valid-pair block of the counting loop: a READ1 proper-pair record
      is counted in the total and, when its reference index is in the table,
      in that reference's bin. */
  method CountValidPair(rec: Record, total: int, bins: array<int>, ghost done: seq<Record>)
    returns (total': int)
    requires total == Count(done, ValidPair)
    requires forall t :: 0 <= t < bins.Length ==> bins[t] == Count(done, ValidPairOn(t))
    modifies bins
    ensures total' == Count(done + [rec], ValidPair)
    ensures forall t :: 0 <= t < bins.Length ==> bins[t] == Count(done + [rec], ValidPairOn(t))
  {
    total' := total;
    var tid := rec.tid;
    if Has(rec.flag, FlagRead1) && Has(rec.flag, FlagProperPair) {
      total' := total' + 1;
      if tid >= 0 && tid < bins.Length {
        bins[tid] := bins[tid] + 1;
      }
    }
    CountSnoc(done, rec, ValidPair);
    forall t | 0 <= t < bins.Length
      ensures bins[t] == Count(done + [rec], ValidPairOn(t))
    {
      CountSnoc(done, rec, ValidPairOn(t));
    }
  }

  /** The tool's main, without I/O and the per-Mb rates: the counting loop
      over the records, then the halving of the pair-based counters. */
  method GetStats(header: seq<Target>, records: seq<Record>) returns (report: Report)
    ensures report.all == |records| / 2
    ensures report.intra == Count(records, Intra) / 2
    ensures report.intra1kb == Count(records, IntraAtLeast(Threshold1kb)) / 2
    ensures report.intra10kb == Count(records, IntraAtLeast(Threshold10kb)) / 2
    ensures report.intra15kb == Count(records, IntraAtLeast(Threshold15kb)) / 2
    ensures report.intra20kb == Count(records, IntraAtLeast(Threshold20kb)) / 2
    ensures report.inter == Count(records, Inter) / 2
    ensures report.totalValidPairs == Count(records, ValidPair)
    ensures |report.validPairsPerSeq| == |header|
    ensures forall t :: 0 <= t < |header| ==> report.validPairsPerSeq[t] == Count(records, ValidPairOn(t))
    ensures report.sequenceLengthBp == TargetLengths(header)
    ensures report.totalAssemblyLength == Sum(TargetLengths(header))
  {
    var all, intra, inter := 0, 0, 0;
    var intra1, intra10, intra15, intra20 := 0, 0, 0, 0;
    var totalValidPairs := 0;
    var validPairsPerSeq := new int[|header|](_ => 0);
    var totalAssemblyLength, sequenceLengthBp := AssemblyLengths(header);

    var i := 0;
    ghost var done: seq<Record> := [];
    while i < |records|
      invariant 0 <= i <= |records|
      invariant done == records[..i]
      invariant all == i
      invariant intra == Count(done, Intra) && inter == Count(done, Inter)
      invariant intra1 == Count(done, IntraAtLeast(Threshold1kb))
      invariant intra10 == Count(done, IntraAtLeast(Threshold10kb))
      invariant intra15 == Count(done, IntraAtLeast(Threshold15kb))
      invariant intra20 == Count(done, IntraAtLeast(Threshold20kb))
      invariant totalValidPairs == Count(done, ValidPair)
      invariant forall t :: 0 <= t < validPairsPerSeq.Length ==>
                  validPairsPerSeq[t] == Count(done, ValidPairOn(t))
    {
      var rec := records[i];
      PrefixSnoc(records, i);
      all := all + 1;
      var tid, mtid := rec.tid, rec.mtid;
      totalValidPairs := CountValidPair(rec, totalValidPairs, validPairsPerSeq, done);
      if mtid == tid && mtid != -1 {
        intra := intra + 1;
        var absIsize := if rec.isize >= 0 then rec.isize else -rec.isize;
        intra1 := intra1 + (if absIsize >= Threshold1kb then 1 else 0);
        intra10 := intra10 + (if absIsize >= Threshold10kb then 1 else 0);
        intra15 := intra15 + (if absIsize >= Threshold15kb then 1 else 0);
        intra20 := intra20 + (if absIsize >= Threshold20kb then 1 else 0);
      } else {
        inter := inter + 1;
      }
      assert intra == Count(done + [rec], Intra) by { CountSnoc(done, rec, Intra); }
      assert inter == Count(done + [rec], Inter) by { CountSnoc(done, rec, Inter); }
      assert intra1 == Count(done + [rec], IntraAtLeast(Threshold1kb)) by {
        CountSnoc(done, rec, IntraAtLeast(Threshold1kb));
      }
      assert intra10 == Count(done + [rec], IntraAtLeast(Threshold10kb)) by {
        CountSnoc(done, rec, IntraAtLeast(Threshold10kb));
      }
      assert intra15 == Count(done + [rec], IntraAtLeast(Threshold15kb)) by {
        CountSnoc(done, rec, IntraAtLeast(Threshold15kb));
      }
      assert intra20 == Count(done + [rec], IntraAtLeast(Threshold20kb)) by {
        CountSnoc(done, rec, IntraAtLeast(Threshold20kb));
      }
      done := done + [rec];
      i := i + 1;
    }
    assert done == records;

    report := Report(all / 2, intra / 2, intra1 / 2, intra10 / 2, intra15 / 2, intra20 / 2, inter / 2,
                     totalValidPairs, totalAssemblyLength, validPairsPerSeq[..], sequenceLengthBp);
  }
}
