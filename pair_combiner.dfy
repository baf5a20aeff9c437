/** The two-stream pair combiner (two_read_bam_combiner): walks the read-1 and
    read-2 alignment streams in lock-step, drops unmapped or low-quality pairs,
    and writes each kept pair with its mate fields and pairing flags filled in. */
module PairCombiner {
  import opened Sam

  // ---------------------------------------------------------------------------
  // Header compatibility
  // ---------------------------------------------------------------------------

  /** Both reference tables list the same sequence names in the same order;
      sequence lengths are not compared. */
  predicate Compatible(h1: seq<Target>, h2: seq<Target>) {
    |h1| == |h2| && forall i :: 0 <= i < |h1| ==> h1[i].name == h2[i].name
  }

  function Names(h: seq<Target>): (ns: seq<string>)
    ensures |ns| == |h|
    ensures forall i :: 0 <= i < |h| ==> ns[i] == h[i].name
  {
    if h == [] then [] else [h[0].name] + Names(h[1..])
  }

  /** Compatibility is equality of the name lists, so it is an equivalence
      and ignores the lengths. */
  lemma CompatibleIffSameNames(h1: seq<Target>, h2: seq<Target>)
    ensures Compatible(h1, h2) <==> Names(h1) == Names(h2)
  {
    if Names(h1) == Names(h2) {
      assert |h1| == |h2|;
      forall i | 0 <= i < |h1| ensures h1[i].name == h2[i].name {
        assert Names(h1)[i] == Names(h2)[i];
      }
    }
  }

  datatype HeaderMismatch = TargetCountDiffers | TargetNameDiffers

  /** The check run once, before any record is read. */
  method CheckHeaders(h1: seq<Target>, h2: seq<Target>) returns (mismatch: Option<HeaderMismatch>)
    ensures mismatch.None? <==> Compatible(h1, h2)
    ensures mismatch == Some(TargetCountDiffers) <==> |h1| != |h2|
  {
    if |h1| != |h2| {
      return Some(TargetCountDiffers);
    }
    for i := 0 to |h1|
      invariant forall j :: 0 <= j < i ==> h1[j].name == h2[j].name
    {
      if h1[i].name != h2[i].name {
        return Some(TargetNameDiffers);
      }
    }
    return None;
  }

  // ---------------------------------------------------------------------------
  // One step: filter, insert sizes, mate fields, flags
  // ---------------------------------------------------------------------------

  /** A pair is skipped when either read is unmapped or below the quality threshold. */
  predicate Dropped(a: Record, b: Record, minMapq: int) {
    Has(a.flag, FlagUnmapped) || Has(b.flag, FlagUnmapped) || a.mapq < minMapq || b.mapq < minMapq
  }

  function Abs(x: int): int {
    if x >= 0 then x else -x
  }

  /** Signed insert sizes given to the two reads of a kept pair. On one
      reference each read gets its mate's position minus its own; across
      references both get 0. */
  function InsertSizes(a: Record, b: Record): (sizes: (TemplateLen, TemplateLen))
    ensures a.tid == b.tid ==> sizes.0 == b.pos - a.pos && sizes.1 == a.pos - b.pos
    ensures a.tid != b.tid ==> sizes == (0, 0)
  {
    if a.tid == b.tid then
      var dist := Abs(a.pos - b.pos);
      if a.pos >= b.pos then (-dist, dist) else (dist, -dist)
    else
      (0, 0)
  }

  /** The insert sizes are opposite, their magnitude is the distance between
      the reads, the read at or after its mate gets the negative one; the
      tie at equal positions gives 0 to both. */
  lemma InsertSizeProperties(a: Record, b: Record)
    ensures InsertSizes(a, b).0 == -InsertSizes(a, b).1
    ensures a.tid == b.tid ==> Abs(InsertSizes(a, b).0) == Abs(a.pos - b.pos)
    ensures a.tid == b.tid && a.pos >= b.pos ==> InsertSizes(a, b).0 == -Abs(a.pos - b.pos)
    ensures a.tid == b.tid && a.pos < b.pos ==> InsertSizes(a, b).0 == Abs(a.pos - b.pos)
    ensures a.pos == b.pos ==> InsertSizes(a, b) == (0, 0)
  {
  }

  /** The flag of a kept read: paired, proper pair and its read bit set,
      supplementary cleared, and mate-reverse set when the mate is reverse. */
  function PairFlag(own: Flag, mate: Flag, readBit: Flag): Flag {
    var f := (own | FlagProperPair | readBit | FlagPaired) & !FlagSupplementary;
    if Has(mate, FlagReverse) then f | FlagMateReverse else f
  }

  /** Bit by bit: which bits PairFlag sets, clears, copies from the mate's
      strand, and which it leaves as they were (these include a READ1 or
      READ2 bit that was already set). */
  lemma PairFlagBits(own: Flag, mate: Flag, readBit: Flag)
    requires readBit == FlagRead1 || readBit == FlagRead2
    ensures var f := PairFlag(own, mate, readBit);
            Has(f, FlagPaired) && Has(f, FlagProperPair) && Has(f, readBit) &&
            !Has(f, FlagSupplementary) &&
            (Has(f, FlagMateReverse) <==> Has(own, FlagMateReverse) || Has(mate, FlagReverse))
    ensures var kept := !(FlagPaired | FlagProperPair | readBit | FlagSupplementary | FlagMateReverse);
            PairFlag(own, mate, readBit) & kept == own & kept
  {
  }

  /** The two records written for a kept pair, with mate fields cross-assigned. */
  function Mated(a: Record, b: Record): (pair: (Record, Record))
    ensures pair.0 == a.(mtid := b.tid, mpos := b.pos, isize := pair.0.isize, flag := pair.0.flag)
    ensures pair.1 == b.(mtid := a.tid, mpos := a.pos, isize := pair.1.isize, flag := pair.1.flag)
    ensures (pair.0.isize, pair.1.isize) == InsertSizes(a, b)
    ensures pair.0.flag == PairFlag(a.flag, b.flag, FlagRead1)
    ensures pair.1.flag == PairFlag(b.flag, a.flag, FlagRead2)
  {
    var sizes := InsertSizes(a, b);
    (a.(mtid := b.tid, mpos := b.pos, isize := sizes.0, flag := PairFlag(a.flag, b.flag, FlagRead1)),
     b.(mtid := a.tid, mpos := a.pos, isize := sizes.1, flag := PairFlag(b.flag, a.flag, FlagRead2)))
  }

  /** What one lock-step pair contributes to the output. */
  function PairOutput(a: Record, b: Record, minMapq: int): (out: seq<Record>)
    ensures |out| == if Dropped(a, b, minMapq) then 0 else 2
    ensures !Dropped(a, b, minMapq) ==> out == [Mated(a, b).0, Mated(a, b).1]
  {
    if Dropped(a, b, minMapq) then [] else [Mated(a, b).0, Mated(a, b).1]
  }

  /** The two written records point at each other: their mate fields name
      the other's reference and position, their insert sizes are opposite,
      each keeps its own name, reference, position, quality and CIGAR. */
  lemma MatedLinked(a: Record, b: Record)
    ensures var (x, y) := Mated(a, b);
            x.mtid == y.tid && x.mpos == y.pos && y.mtid == x.tid && y.mpos == x.pos &&
            x.isize == -y.isize &&
            x.name == a.name && x.tid == a.tid && x.pos == a.pos && x.mapq == a.mapq && x.cigar == a.cigar &&
            y.name == b.name && y.tid == b.tid && y.pos == b.pos && y.mapq == b.mapq && y.cigar == b.cigar
  {
  }

  /** Reads that carry neither READ1 nor READ2 come out with exactly one of
      them each, READ1 on the first stream's record. */
  lemma ReadBitsWhenFresh(a: Record, b: Record)
    requires !Has(a.flag, FlagRead1) && !Has(a.flag, FlagRead2)
    requires !Has(b.flag, FlagRead1) && !Has(b.flag, FlagRead2)
    ensures var (x, y) := Mated(a, b);
            Has(x.flag, FlagRead1) && !Has(x.flag, FlagRead2) &&
            Has(y.flag, FlagRead2) && !Has(y.flag, FlagRead1)
  {
    PairFlagBits(a.flag, b.flag, FlagRead1);
    PairFlagBits(b.flag, a.flag, FlagRead2);
  }

  /** Exchanging the streams exchanges the written records except for the
      READ1 / READ2 bit each one gains: the tie-break at equal positions
      has no visible effect. */
  lemma SwapStreams(a: Record, b: Record)
    ensures Mated(b, a).0 == Mated(a, b).1.(flag := PairFlag(b.flag, a.flag, FlagRead1))
    ensures Mated(b, a).1 == Mated(a, b).0.(flag := PairFlag(a.flag, b.flag, FlagRead2))
  {
  }

  // ---------------------------------------------------------------------------
  // The lock-step loop
  // ---------------------------------------------------------------------------

  /** Number of lock-step reads before one stream runs out. */
  function Steps(s1: seq<Record>, s2: seq<Record>): nat {
    if |s1| <= |s2| then |s1| else |s2|
  }

  /** The first n records of both streams have matching names. */
  predicate NamesAgree(s1: seq<Record>, s2: seq<Record>, n: nat)
    requires n <= |s1| && n <= |s2|
  {
    forall k :: 0 <= k < n ==> s1[k].name == s2[k].name
  }

  /** Everything written for the first n steps. */
  function Emitted(s1: seq<Record>, s2: seq<Record>, minMapq: int, n: nat): seq<Record>
    requires n <= |s1| && n <= |s2|
    decreases n
  {
    if n == 0 then [] else Emitted(s1, s2, minMapq, n - 1) + PairOutput(s1[n - 1], s2[n - 1], minMapq)
  }

  /** The output only depends on the records read so far: anything after
      step n, including a longer tail of either stream, is irrelevant. */
  lemma {:induction false} EmittedIgnoresRest(s1: seq<Record>, s2: seq<Record>, t1: seq<Record>, t2: seq<Record>,
                                              minMapq: int, n: nat)
    requires n <= |s1| && n <= |s2|
    ensures Emitted(s1 + t1, s2 + t2, minMapq, n) == Emitted(s1, s2, minMapq, n)
    decreases n
  {
    if n > 0 {
      EmittedIgnoresRest(s1, s2, t1, t2, minMapq, n - 1);
      assert (s1 + t1)[n - 1] == s1[n - 1] && (s2 + t2)[n - 1] == s2[n - 1];
    }
  }

  /** The written stream is a sequence of linked pairs: an even number of
      records, each pair mapped, above the threshold, named alike, flagged as
      a proper pair with READ1 then READ2, without the supplementary bit, and
      pointing at each other. */
  lemma {:induction false} EmittedArePairs(s1: seq<Record>, s2: seq<Record>, minMapq: int, n: nat)
    requires n <= |s1| && n <= |s2| && NamesAgree(s1, s2, n)
    ensures var e := Emitted(s1, s2, minMapq, n);
            |e| % 2 == 0 &&
            forall j :: 0 <= j < |e| / 2 ==> LinkedPair(e[2 * j], e[2 * j + 1], minMapq)
    decreases n
  {
    if n > 0 {
      EmittedArePairs(s1, s2, minMapq, n - 1);
      var a, b := s1[n - 1], s2[n - 1];
      if !Dropped(a, b, minMapq) {
        PairOutputLinked(a, b, minMapq);
        AppendLinkedPair(Emitted(s1, s2, minMapq, n - 1), Mated(a, b).0, Mated(a, b).1, minMapq);
      }
    }
  }

  lemma AppendLinkedPair(prev: seq<Record>, x: Record, y: Record, minMapq: int)
    requires |prev| % 2 == 0
    requires forall j :: 0 <= j < |prev| / 2 ==> LinkedPair(prev[2 * j], prev[2 * j + 1], minMapq)
    requires LinkedPair(x, y, minMapq)
    ensures var e := prev + [x, y];
            |e| % 2 == 0 &&
            forall j :: 0 <= j < |e| / 2 ==> LinkedPair(e[2 * j], e[2 * j + 1], minMapq)
  {
    var e := prev + [x, y];
    forall j | 0 <= j < |e| / 2 ensures LinkedPair(e[2 * j], e[2 * j + 1], minMapq) {
      if j < |prev| / 2 {
        assert e[2 * j] == prev[2 * j] && e[2 * j + 1] == prev[2 * j + 1];
      } else {
        assert e[2 * j] == x && e[2 * j + 1] == y;
      }
    }
  }

  /** Two consecutive written records (record 1 then record 2) forming a pair. */
  ghost predicate LinkedPair(x: Record, y: Record, minMapq: int) {
    x.name == y.name &&
    !Has(x.flag, FlagUnmapped) && !Has(y.flag, FlagUnmapped) &&
    x.mapq >= minMapq && y.mapq >= minMapq &&
    Has(x.flag, FlagPaired) && Has(x.flag, FlagProperPair) && Has(x.flag, FlagRead1) &&
    Has(y.flag, FlagPaired) && Has(y.flag, FlagProperPair) && Has(y.flag, FlagRead2) &&
    !Has(x.flag, FlagSupplementary) && !Has(y.flag, FlagSupplementary) &&
    x.mtid == y.tid && x.mpos == y.pos && y.mtid == x.tid && y.mpos == x.pos &&
    x.isize == -y.isize &&
    (x.tid == y.tid ==> x.isize == y.pos - x.pos) &&
    (x.tid != y.tid ==> x.isize == 0)
  }

  /** A kept step writes one linked pair. */
  lemma PairOutputLinked(a: Record, b: Record, minMapq: int)
    requires !Dropped(a, b, minMapq) && a.name == b.name
    ensures PairOutput(a, b, minMapq) == [Mated(a, b).0, Mated(a, b).1]
    ensures LinkedPair(Mated(a, b).0, Mated(a, b).1, minMapq)
  {
    MatedLinked(a, b);
    PairFlagBits(a.flag, b.flag, FlagRead1);
    PairFlagBits(b.flag, a.flag, FlagRead2);
  }

  /** The flag updates of one kept record, bit operation by bit operation. */
  method MarkPaired(aln: Record, mateFlag: Flag, readBit: Flag) returns (out: Record)
    ensures out == aln.(flag := PairFlag(aln.flag, mateFlag, readBit))
  {
    var flag := aln.flag;
    flag := flag | FlagProperPair | readBit | FlagPaired;
    flag := flag & !FlagSupplementary;
    if Has(mateFlag, FlagReverse) {
      flag := flag | FlagMateReverse;
    }
    out := aln.(flag := flag);
  }

  /** The body of one kept step: both records' insert sizes, mate fields
      and flags are overwritten, in the order the tool does it. */
  method MatePair(aln1: Record, aln2: Record) returns (out1: Record, out2: Record)
    ensures (out1, out2) == Mated(aln1, aln2)
  {
    out1, out2 := aln1, aln2;
    var dist1: TemplateLen, dist2: TemplateLen := 0, 0;
    if out1.tid == out2.tid {
      var dist := Abs(out1.pos - out2.pos);
      if out1.pos >= out2.pos {
        dist1, dist2 := -dist, dist;
      } else {
        dist1, dist2 := dist, -dist;
      }
    }
    out1 := out1.(mtid := out2.tid, mpos := out2.pos, isize := dist1);
    out2 := out2.(mtid := out1.tid, mpos := out1.pos, isize := dist2);
    out1 := MarkPaired(out1, aln2.flag, FlagRead1);
    out2 := MarkPaired(out2, aln1.flag, FlagRead2);
  }

  /** The lock-step loop of the tool's main. Returns what was written and,
      on a read-name mismatch, the 1-based step at which it happened; the
      pairs of earlier steps have already been written by then. */
  method CombineStreams(s1: seq<Record>, s2: seq<Record>, minMapq: int)
    returns (written: seq<Record>, mismatchAt: Option<nat>)
    ensures mismatchAt.None? ==>
              NamesAgree(s1, s2, Steps(s1, s2)) && written == Emitted(s1, s2, minMapq, Steps(s1, s2))
    ensures mismatchAt.Some? ==>
              var k := mismatchAt.value;
              1 <= k <= Steps(s1, s2) && NamesAgree(s1, s2, k - 1) && s1[k - 1].name != s2[k - 1].name &&
              written == Emitted(s1, s2, minMapq, k - 1)
  {
    written := [];
    var counter := 0;
    while counter < |s1| && counter < |s2|
      invariant 0 <= counter <= Steps(s1, s2)
      invariant NamesAgree(s1, s2, counter)
      invariant written == Emitted(s1, s2, minMapq, counter)
    {
      var aln1, aln2 := s1[counter], s2[counter];
      counter := counter + 1;
      if aln1.name != aln2.name {
        return written, Some(counter);
      }
      var flag1, flag2 := aln1.flag, aln2.flag;
      if Has(flag1, FlagUnmapped) || Has(flag2, FlagUnmapped) || aln1.mapq < minMapq || aln2.mapq < minMapq {
        continue;
      }
      aln1, aln2 := MatePair(aln1, aln2);
      written := written + [aln1, aln2];
    }
    return written, None;
  }

  datatype Failure =
    | IncompatibleHeaders(why: HeaderMismatch)
    | ReadNamesDiverge(step: nat)

  /** The whole run: the header check, then the lock-step loop. */
  method RunCombiner(h1: seq<Target>, h2: seq<Target>, s1: seq<Record>, s2: seq<Record>, minMapq: int)
    returns (written: seq<Record>, failure: Option<Failure>)
    ensures (failure.Some? && failure.value.IncompatibleHeaders?) <==> !Compatible(h1, h2)
    ensures !Compatible(h1, h2) ==>
              written == [] &&
              failure.value.why == if |h1| != |h2| then TargetCountDiffers else TargetNameDiffers
    ensures failure.None? ==>
              NamesAgree(s1, s2, Steps(s1, s2)) && written == Emitted(s1, s2, minMapq, Steps(s1, s2))
    ensures failure.Some? && failure.value.ReadNamesDiverge? ==>
              var k := failure.value.step;
              1 <= k <= Steps(s1, s2) && NamesAgree(s1, s2, k - 1) && s1[k - 1].name != s2[k - 1].name &&
              written == Emitted(s1, s2, minMapq, k - 1)
  {
    var mismatch := CheckHeaders(h1, h2);
    if mismatch.Some? {
      return [], Some(IncompatibleHeaders(mismatch.value));
    }
    var mismatchAt;
    written, mismatchAt := CombineStreams(s1, s2, minMapq);
    failure := if mismatchAt.Some? then Some(ReadNamesDiverge(mismatchAt.value)) else None;
  }
}
