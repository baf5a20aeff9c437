/** The five-prime group consolidator (filter_five_end): reads a stream grouped
    by query name and emits one record per group, chosen by whether the 5' end
    of an alignment starts with an aligned (match-class) CIGAR operation. */
module FiveEnd {
  import opened Sam

  /** M, = and X: the operations that align a read base to a reference base. */
  predicate IsAlignmentMatch(op: CigarOp) {
    op == Match || op == SeqMatch || op == SeqMismatch
  }

  /** The record with the unmapped bit ORed into its flag. */
  function SetUnmapped(r: Record): (u: Record)
    ensures Has(u.flag, FlagUnmapped)
    ensures u.flag & !FlagUnmapped == r.flag & !FlagUnmapped
    ensures u == r.(flag := u.flag)
  {
    r.(flag := r.flag | FlagUnmapped)
  }

  lemma SetUnmappedIdempotent(r: Record)
    ensures SetUnmapped(SetUnmapped(r)) == SetUnmapped(r)
  {
  }

  lemma SetUnmappedFixedPoints(r: Record)
    ensures SetUnmapped(r) == r <==> Has(r.flag, FlagUnmapped)
  {
    if SetUnmapped(r) == r {
      assert Has(r.flag, FlagUnmapped);
    }
  }

  // ---------------------------------------------------------------------------
  // Which end of the CIGAR the source inspects
  // ---------------------------------------------------------------------------

  function Reverse<T>(s: seq<T>): (r: seq<T>)
    ensures |r| == |s|
    ensures forall i :: 0 <= i < |s| ==> r[i] == s[|s| - 1 - i]
  {
    if s == [] then [] else Reverse(s[1..]) + [s[0]]
  }

  /** The CIGAR in the orientation of the sequenced read: as stored for a
      forward-strand record, reversed for a reverse-strand one. Its first
      operation covers the read's 5' end. */
  function ReadOrientedCigar(r: Record): seq<CigarElem> {
    if Has(r.flag, FlagReverse) then Reverse(r.cigar) else r.cigar
  }

  /** The CIGAR index the source reads to classify the 5' end: the first
      operation on the forward strand, the last one on the reverse strand. */
  function FivePrimeIndex(r: Record): int {
    if Has(r.flag, FlagReverse) then |r.cigar| - 1 else 0
  }

  /** A record without CIGAR operations (an unmapped placeholder has CIGAR '*')
      makes the source read outside the CIGAR array, on either strand. */
  lemma EmptyCigarReadsOutside(r: Record)
    requires r.cigar == []
    ensures !(0 <= FivePrimeIndex(r) < |r.cigar|)
  {
  }

  /** is_five_prime_match as written: defined only when there is an
      operation to read. */
  function FivePrimeMatchAsWritten(r: Record): bool
    requires 0 < |r.cigar|
  {
    IsAlignmentMatch(r.cigar[FivePrimeIndex(r)].op)
  }

  /** The operation the source reads is the first one in read orientation,
      the one covering the read's 5' end. */
  lemma FivePrimeAsWrittenReadsFivePrimeEnd(r: Record)
    requires 0 < |r.cigar|
    ensures FivePrimeMatchAsWritten(r) <==> IsAlignmentMatch(ReadOrientedCigar(r)[0].op)
  {
  }

  /** The 5'-match test the rest of the model uses: as written wherever the
      source reads inside the CIGAR, and false for a record without one. */
  function IsFivePrimeMatch(r: Record): bool {
    0 < |r.cigar| && IsAlignmentMatch(r.cigar[FivePrimeIndex(r)].op)
  }

  lemma FivePrimeMatchCorrected(r: Record)
    ensures 0 < |r.cigar| ==> (IsFivePrimeMatch(r) <==> FivePrimeMatchAsWritten(r))
    ensures r.cigar == [] ==> !IsFivePrimeMatch(r)
  {
  }

  /** is_three_prime_match: looks only at the last CIGAR operation, whatever
      the strand. The tool never calls it. */
  function IsThreePrimeMatch(r: Record): (m: bool)
    requires 0 < |r.cigar|
    ensures m <==> IsAlignmentMatch(Reverse(r.cigar)[0].op)
  {
    IsAlignmentMatch(r.cigar[|r.cigar| - 1].op)
  }

  /** On the reverse strand both tests read the same operation; on the
      forward strand the three-prime test reads the read's 3' end. */
  lemma ThreePrimeAgainstFivePrime(r: Record)
    requires 0 < |r.cigar|
    ensures Has(r.flag, FlagReverse) ==> IsThreePrimeMatch(r) == IsFivePrimeMatch(r)
    ensures !Has(r.flag, FlagReverse) ==>
              IsThreePrimeMatch(r) == IsAlignmentMatch(ReadOrientedCigar(r)[|r.cigar| - 1].op)
  {
  }

  /** The three-prime test ignores every flag bit. */
  lemma ThreePrimeIgnoresFlag(r: Record, f: Flag)
    requires 0 < |r.cigar|
    ensures IsThreePrimeMatch(r.(flag := f)) == IsThreePrimeMatch(r)
  {
  }

  /** The 5'-match test is strand-aware: flipping the strand of a record and
      reversing its CIGAR describes the same read, and gives the same answer. */
  lemma FivePrimeStrandSymmetry(r: Record)
    ensures var flipped := r.(flag := r.flag ^ FlagReverse, cigar := Reverse(r.cigar));
            IsFivePrimeMatch(flipped) == IsFivePrimeMatch(r)
  {
  }

  /** Setting the unmapped bit does not change the 5' classification. */
  lemma FivePrimeIgnoresUnmapped(r: Record)
    ensures IsFivePrimeMatch(SetUnmapped(r)) == IsFivePrimeMatch(r)
  {
    assert Has(SetUnmapped(r).flag, FlagReverse) == Has(r.flag, FlagReverse);
  }

  // ---------------------------------------------------------------------------
  // Group state and the group reduction rule
  // ---------------------------------------------------------------------------

  /** The loop's state between records: no group open yet, or a group with its
      name, first record, earliest 5'-matching record (if any) and size. */
  datatype GroupState =
    | Empty
    | Accumulating(name: string, first: Record, fivePrime: Option<Record>, count: nat)

  /** process_record_group: what is written when a group closes. */
  function ProcessGroup(st: GroupState): (out: seq<Record>)
    ensures |out| == if st.Empty? then 0 else 1
  {
    match st
    case Empty => []
    case Accumulating(_, first, fivePrime, count) =>
      if count == 1 then
        if fivePrime.Some? then [fivePrime.value] else [SetUnmapped(first)]
      else if count == 2 && fivePrime.Some? then
        [fivePrime.value]
      else
        [SetUnmapped(first)]
  }

  /** Index of the earliest record of g that passes the 5'-match test. */
  function FirstMatch(g: seq<Record>): (k: Option<nat>)
    ensures k.Some? ==> k.value < |g|
    decreases |g|
  {
    if g == [] then None
    else
      var k := FirstMatch(g[..|g| - 1]);
      if k.Some? then k
      else if IsFivePrimeMatch(g[|g| - 1]) then Some(|g| - 1)
      else None
  }

  /** FirstMatch finds the earliest 5'-matching record, and finds none only
      when no record of g matches. */
  lemma {:induction false} FirstMatchIsEarliest(g: seq<Record>)
    ensures var k := FirstMatch(g);
            k.Some? ==> IsFivePrimeMatch(g[k.value]) &&
                        forall j :: 0 <= j < k.value ==> !IsFivePrimeMatch(g[j])
    ensures FirstMatch(g).None? ==> forall j :: 0 <= j < |g| ==> !IsFivePrimeMatch(g[j])
    decreases |g|
  {
    if g != [] {
      var p := g[..|g| - 1];
      FirstMatchIsEarliest(p);
      assert forall j :: 0 <= j < |p| ==> p[j] == g[j];
    }
  }

  /** The state after reading exactly the records of group g. */
  function Summary(g: seq<Record>): (st: GroupState)
    requires g != []
  {
    var fivePrime := match FirstMatch(g) case Some(k) => Some(g[k]) case None => None;
    Accumulating(g[0].name, g[0], fivePrime, |g|)
  }

  /** The summary of a group holds its name, its first record, its earliest
      5'-matching record when it has one, and its length. */
  lemma SummaryTracksGroup(g: seq<Record>)
    requires g != []
    ensures Summary(g).name == g[0].name && Summary(g).first == g[0] && Summary(g).count == |g|
    ensures Summary(g).fivePrime.Some? <==> exists j :: 0 <= j < |g| && IsFivePrimeMatch(g[j])
    ensures Summary(g).fivePrime.Some? ==>
              exists k :: 0 <= k < |g| && Summary(g).fivePrime.value == g[k] &&
                          IsFivePrimeMatch(g[k]) && forall j :: 0 <= j < k ==> !IsFivePrimeMatch(g[j])
  {
    FirstMatchIsEarliest(g);
    var k := FirstMatch(g);
    if k.Some? {
      assert Summary(g).fivePrime.value == g[k.value];
    }
  }

  /** The one record emitted for a non-empty group. */
  function Representative(g: seq<Record>): Record
    requires g != []
  {
    ProcessGroup(Summary(g))[0]
  }

  lemma RepresentativeOfSingle(g: seq<Record>)
    requires |g| == 1
    ensures Representative(g) == if IsFivePrimeMatch(g[0]) then g[0] else SetUnmapped(g[0])
  {
    assert g[..0] == [];
  }

  /** A group of two yields its earliest 5'-matching record unchanged, which
      may be the second one, and otherwise its first record marked unmapped. */
  lemma RepresentativeOfPair(g: seq<Record>)
    requires |g| == 2
    ensures Representative(g) ==
              if IsFivePrimeMatch(g[0]) then g[0]
              else if IsFivePrimeMatch(g[1]) then g[1]
              else SetUnmapped(g[0])
  {
    assert g[..1][..0] == [];
    FirstMatchIsEarliest(g);
  }

  /** A group of three or more yields its first record marked unmapped, even
      when one of them is a 5' match. */
  lemma RepresentativeOfLarger(g: seq<Record>)
    requires |g| >= 3
    ensures Representative(g) == SetUnmapped(g[0])
  {
  }

  /** Whatever the size, the emitted record is either a 5'-matching record of
      the group, unchanged, or the first record marked unmapped; for a group of
      one name it carries that name. */
  lemma RepresentativeIsChosen(g: seq<Record>)
    requires g != []
    ensures var r := Representative(g);
            (r in g && IsFivePrimeMatch(r)) || r == SetUnmapped(g[0])
    ensures (forall j :: 0 <= j < |g| ==> g[j].name == g[0].name) ==>
              Representative(g).name == g[0].name
  {
    FirstMatchIsEarliest(g);
  }

  // ---------------------------------------------------------------------------
  // Maximal runs of equal names
  // ---------------------------------------------------------------------------

  function Last<T>(s: seq<T>): T
    requires s != []
  {
    s[|s| - 1]
  }

  lemma InitLast<T>(s: seq<T>)
    requires s != []
    ensures s == s[..|s| - 1] + [Last(s)]
  {
  }

  /** Adds one record to a cut: onto the last run when the names agree,
      as a run of its own otherwise. */
  function Attach(rs: seq<seq<Record>>, r: Record): (rs': seq<seq<Record>>)
    requires forall k :: 0 <= k < |rs| ==> |rs[k]| > 0
    ensures forall k :: 0 <= k < |rs'| ==> |rs'[k]| > 0
    ensures 0 < |rs'| <= |rs| + 1
  {
    if rs != [] && Last(rs)[0].name == r.name then
      rs[..|rs| - 1] + [Last(rs) + [r]]
    else
      rs + [[r]]
  }

  /** The input cut into maximal runs of consecutive records with equal names. */
  function Runs(s: seq<Record>): (rs: seq<seq<Record>>)
    ensures |rs| <= |s|
    ensures s == [] <==> rs == []
    ensures forall k :: 0 <= k < |rs| ==> |rs[k]| > 0
    decreases |s|
  {
    if s == [] then [] else Attach(Runs(s[..|s| - 1]), s[|s| - 1])
  }

  /** A record with the last run's name joins that run. */
  lemma RunsJoin(p: seq<Record>, r: Record)
    requires p != [] && Last(Runs(p))[0].name == r.name
    ensures Runs(p + [r]) == Runs(p)[..|Runs(p)| - 1] + [Last(Runs(p)) + [r]]
  {
    assert (p + [r])[..|p|] == p;
  }

  /** Any other record opens a new run. */
  lemma RunsOpen(p: seq<Record>, r: Record)
    requires p == [] || Last(Runs(p))[0].name != r.name
    ensures Runs(p + [r]) == Runs(p) + [[r]]
  {
    assert (p + [r])[..|p|] == p;
  }

  lemma AttachEndsWith(rs: seq<seq<Record>>, r: Record)
    requires forall k :: 0 <= k < |rs| ==> |rs[k]| > 0
    ensures Last(Last(Attach(rs, r))) == r
  {
  }

  lemma RunsEndWithLast(s: seq<Record>)
    requires s != []
    ensures Last(Last(Runs(s))) == Last(s)
  {
    AttachEndsWith(Runs(s[..|s| - 1]), s[|s| - 1]);
  }

  function Flatten(rs: seq<seq<Record>>): seq<Record>
    decreases |rs|
  {
    if rs == [] then [] else Flatten(rs[..|rs| - 1]) + Last(rs)
  }

  lemma FlattenSnoc(rs: seq<seq<Record>>, g: seq<Record>)
    ensures Flatten(rs + [g]) == Flatten(rs) + g
  {
    assert (rs + [g])[..|rs|] == rs;
  }

  lemma AttachFlatten(rs: seq<seq<Record>>, r: Record)
    requires forall k :: 0 <= k < |rs| ==> |rs[k]| > 0
    ensures Flatten(Attach(rs, r)) == Flatten(rs) + [r]
  {
    if rs != [] && Last(rs)[0].name == r.name {
      var init, last := rs[..|rs| - 1], Last(rs);
      InitLast(rs);
      FlattenSnoc(init, last);
      FlattenSnoc(init, last + [r]);
      assert Flatten(init) + (last + [r]) == (Flatten(init) + last) + [r];
    } else {
      FlattenSnoc(rs, [r]);
    }
  }

  /** Concatenating the runs gives back the input. */
  lemma {:induction false} RunsFlatten(s: seq<Record>)
    ensures Flatten(Runs(s)) == s
    decreases |s|
  {
    if s != [] {
      var p, r := s[..|s| - 1], Last(s);
      calc {
        Flatten(Runs(s));
        Flatten(Attach(Runs(p), r));
        { AttachFlatten(Runs(p), r); }
        Flatten(Runs(p)) + [r];
        { RunsFlatten(p); }
        p + [r];
        { InitLast(s); }
        s;
      }
    }
  }

  /** Every record of each run carries the run's name. */
  ghost predicate Uniform(rs: seq<seq<Record>>) {
    forall k, j :: 0 <= k < |rs| && 0 <= j < |rs[k]| ==> rs[k][j].name == rs[k][0].name
  }

  /** Neighbouring runs differ in name. */
  ghost predicate Maximal(rs: seq<seq<Record>>)
    requires forall k :: 0 <= k < |rs| ==> |rs[k]| > 0
  {
    forall k :: 0 < k < |rs| ==> rs[k - 1][0].name != rs[k][0].name
  }

  lemma AttachUniform(rs: seq<seq<Record>>, r: Record)
    requires forall k :: 0 <= k < |rs| ==> |rs[k]| > 0
    requires Uniform(rs)
    ensures Uniform(Attach(rs, r))
  {
    var rs': seq<seq<Record>> := Attach(rs, r);
    forall k, j | 0 <= k < |rs'| && 0 <= j < |rs'[k]|
      ensures rs'[k][j].name == rs'[k][0].name
    {
      if k < |rs| - 1 {
        assert rs'[k] == rs[k];
      } else if k == |rs| - 1 && rs'[k] != rs[k] {
        assert rs'[k] == rs[k] + [r];
      }
    }
  }

  lemma AttachMaximal(rs: seq<seq<Record>>, r: Record)
    requires forall k :: 0 <= k < |rs| ==> |rs[k]| > 0
    requires Maximal(rs)
    ensures Maximal(Attach(rs, r))
  {
    var rs': seq<seq<Record>> := Attach(rs, r);
    forall k | 0 < k < |rs'|
      ensures rs'[k - 1][0].name != rs'[k][0].name
    {
      if k < |rs| - 1 {
        assert rs'[k - 1] == rs[k - 1] && rs'[k] == rs[k];
      } else if k == |rs| - 1 {
        assert rs'[k - 1] == rs[k - 1] && rs'[k][0] == rs[k][0];
      }
    }
  }

  /** Every record of a run carries the run's name. */
  lemma {:induction false} RunsUniform(s: seq<Record>)
    ensures forall k, j :: 0 <= k < |Runs(s)| && 0 <= j < |Runs(s)[k]| ==>
              Runs(s)[k][j].name == Runs(s)[k][0].name
    decreases |s|
  {
    if s != [] {
      RunsUniform(s[..|s| - 1]);
      AttachUniform(Runs(s[..|s| - 1]), s[|s| - 1]);
    }
  }

  /** Neighbouring runs differ in name, so the runs are maximal. */
  lemma {:induction false} RunsMaximal(s: seq<Record>)
    ensures forall k :: 0 < k < |Runs(s)| ==> Runs(s)[k - 1][0].name != Runs(s)[k][0].name
    decreases |s|
  {
    if s != [] {
      RunsMaximal(s[..|s| - 1]);
      AttachMaximal(Runs(s[..|s| - 1]), s[|s| - 1]);
    }
  }

  /** Number of positions where the name differs from the previous record's. */
  function NameChanges(s: seq<Record>): nat
    decreases |s|
  {
    if |s| <= 1 then 0
    else NameChanges(s[..|s| - 1]) + (if s[|s| - 1].name != s[|s| - 2].name then 1 else 0)
  }

  /** One run per name change, plus the first one; none for empty input. */
  lemma {:induction false} RunsCount(s: seq<Record>)
    ensures |Runs(s)| == if s == [] then 0 else NameChanges(s) + 1
    decreases |s|
  {
    if s != [] {
      var p: seq<Record>, r: Record := s[..|s| - 1], Last(s);
      assert s == p + [r];
      RunsCount(p);
      if p != [] {
        RunsEndWithLast(p);
        RunsUniform(p);
        var last := Last(Runs(p));
        assert last[|last| - 1].name == last[0].name;
        assert Last(p) == s[|s| - 2];
        if Last(Runs(p))[0].name == r.name {
          RunsJoin(p, r);
        } else {
          RunsOpen(p, r);
        }
      } else {
        RunsOpen(p, r);
      }
    }
  }

  // ---------------------------------------------------------------------------
  // The whole stream
  // ---------------------------------------------------------------------------

  /** One representative per run, in run order. */
  function Emit(rs: seq<seq<Record>>): (out: seq<Record>)
    requires forall k :: 0 <= k < |rs| ==> |rs[k]| > 0
    ensures |out| == |rs|
    decreases |rs|
  {
    if rs == [] then [] else Emit(rs[..|rs| - 1]) + [Representative(Last(rs))]
  }

  lemma {:induction false} EmitAt(rs: seq<seq<Record>>, k: nat)
    requires forall k :: 0 <= k < |rs| ==> |rs[k]| > 0
    requires k < |rs|
    ensures Emit(rs)[k] == Representative(rs[k])
    decreases |rs|
  {
    if k < |rs| - 1 {
      EmitAt(rs[..|rs| - 1], k);
    }
  }

  /** What the consolidator writes for a whole input stream. */
  function Consolidate(s: seq<Record>): seq<Record> {
    Emit(Runs(s))
  }

  /** The output has one record per maximal run, the k-th being the
      representative of the k-th run and carrying its name. */
  lemma ConsolidateShape(s: seq<Record>)
    ensures |Consolidate(s)| == if s == [] then 0 else NameChanges(s) + 1
    ensures forall k :: 0 <= k < |Runs(s)| ==>
              Consolidate(s)[k] == Representative(Runs(s)[k]) &&
              Consolidate(s)[k].name == Runs(s)[k][0].name
  {
    RunsCount(s);
    RunsUniform(s);
    forall k | 0 <= k < |Runs(s)|
      ensures Consolidate(s)[k] == Representative(Runs(s)[k])
      ensures Consolidate(s)[k].name == Runs(s)[k][0].name
    {
      EmitAt(Runs(s), k);
      RepresentativeIsChosen(Runs(s)[k]);
    }
  }

  /** Reading a record with the open group's name is one Stored step on
      the group's summary. */
  lemma SummarySnoc(g: seq<Record>, r: Record)
    requires g != [] && r.name == g[0].name
    ensures Summary(g + [r]) == Stored(Summary(g), r)
  {
    assert (g + [r])[..|g|] == g;
  }

  lemma SummarySingle(r: Record)
    ensures Summary([r]) == Accumulating(r.name, r, if IsFivePrimeMatch(r) then Some(r) else None, 1)
  {
    assert [r][..0] == [];
  }

  lemma EmitSnoc(rs: seq<seq<Record>>, g: seq<Record>)
    requires g != [] && forall k :: 0 <= k < |rs| ==> |rs[k]| > 0
    ensures Emit(rs + [g]) == Emit(rs) + [Representative(g)]
  {
    assert (rs + [g])[..|rs|] == rs;
  }

  /** The group open after a prefix p of the input: the last run of p,
      summarised, or no group for the empty prefix. */
  function OpenGroup(p: seq<Record>): GroupState {
    if p == [] then Empty else Summary(Last(Runs(p)))
  }

  /** What has been written after a prefix p: the representatives of every
      run of p but the last, which is still open. */
  function Written(p: seq<Record>): seq<Record> {
    if p == [] then [] else var rs := Runs(p); Emit(rs[..|rs| - 1])
  }

  /** What one iteration of the grouping loop writes: the open group's
      representative when the new record's name differs from the group's. */
  function Flushed(st: GroupState, r: Record): seq<Record> {
    if st.Accumulating? && st.name != r.name then ProcessGroup(st) else []
  }

  /** The group state after one iteration of the grouping loop has stored r. */
  function Stored(st: GroupState, r: Record): GroupState {
    if st.Accumulating? && st.name == r.name then
      Accumulating(r.name, st.first,
                   if IsFivePrimeMatch(r) && st.fivePrime.None? then Some(r) else st.fivePrime,
                   st.count + 1)
    else
      Accumulating(r.name, r, if IsFivePrimeMatch(r) then Some(r) else None, 1)
  }

  /** One iteration of the grouping loop, on the state after the prefix p,
      gives the state after p + [r]: the loop state is a left fold of
      Flushed and Stored over the input. */
  lemma ProgressStep(p: seq<Record>, r: Record)
    ensures OpenGroup(p + [r]) == Stored(OpenGroup(p), r)
    ensures Written(p + [r]) == Written(p) + Flushed(OpenGroup(p), r)
  {
    if p == [] {
      ProgressFirst(p, r);
    } else if Last(Runs(p))[0].name == r.name {
      ProgressJoin(p, r);
    } else {
      ProgressOpen(p, r);
    }
  }

  /** The grouping loop of the tool's main: keeps the state of the open group,
      writes its representative when the name changes, and once more at the
      end of the stream. */
  method FilterFiveEnd(records: seq<Record>) returns (out: seq<Record>)
    requires forall i :: 0 <= i < |records| ==> records[i].name != ""
    ensures out == Consolidate(records)
  {
    out := [];
    var st := Empty;
    var i := 0;
    ghost var done: seq<Record> := [];
    while i < |records|
      invariant 0 <= i <= |records|
      invariant done == records[..i]
      invariant st == OpenGroup(done)
      invariant out == Written(done)
    {
      var record := records[i];
      PrefixSnoc(records, i);
      ProgressStep(done, record);
      ghost var st0, out0 := st, out;
      if st.Accumulating? && st.name != record.name {
        out := out + ProcessGroup(st);
        st := Empty;
      }
      // Store the record into the slots of the current group.
      var first := if st.Empty? then record else st.first;
      var fivePrime := if st.Empty? then None else st.fivePrime;
      if IsFivePrimeMatch(record) && fivePrime.None? {
        fivePrime := Some(record);
      }
      var counter := if st.Empty? then 0 else st.count;
      st := Accumulating(record.name, first, fivePrime, counter + 1);
      assert out == out0 + Flushed(st0, record) && st == Stored(st0, record);
      done := done + [record];
      i := i + 1;
    }
    assert done == records;
    ProgressEnd(records);
    out := out + ProcessGroup(st);
  }

  /** The first record of the stream opens the first group. */
  lemma ProgressFirst(p: seq<Record>, r: Record)
    requires p == []
    ensures OpenGroup(p + [r]) == Stored(OpenGroup(p), r)
    ensures Written(p + [r]) == Written(p) + Flushed(OpenGroup(p), r)
  {
    assert p + [r] == [r];
    assert Runs([r]) == [[r]] by { RunsOpen([], r); }
    SummarySingle(r);
  }

  /** A record with the open group's name joins the group. */
  lemma ProgressJoin(p: seq<Record>, r: Record)
    requires p != [] && Last(Runs(p))[0].name == r.name
    ensures OpenGroup(p + [r]) == Stored(OpenGroup(p), r)
    ensures Written(p + [r]) == Written(p) + Flushed(OpenGroup(p), r)
  {
    JoinGroup(p, r);
    JoinWritten(p, r);
  }

  lemma JoinGroup(p: seq<Record>, r: Record)
    requires p != [] && Last(Runs(p))[0].name == r.name
    ensures OpenGroup(p + [r]) == Stored(OpenGroup(p), r)
  {
    var last := Last(Runs(p));
    calc {
      OpenGroup(p + [r]);
      Summary(Last(Runs(p + [r])));
      { RunsJoin(p, r); }
      Summary(last + [r]);
      { SummarySnoc(last, r); }
      Stored(Summary(last), r);
    }
  }

  lemma JoinWritten(p: seq<Record>, r: Record)
    requires p != [] && Last(Runs(p))[0].name == r.name
    ensures Written(p + [r]) == Written(p) + Flushed(OpenGroup(p), r)
  {
    var rs: seq<seq<Record>> := Runs(p);
    var rs': seq<seq<Record>> := Runs(p + [r]);
    var init := rs[..|rs| - 1];
    assert rs'[..|rs'| - 1] == init by {
      RunsJoin(p, r);
      assert rs' == init + [Last(rs) + [r]];
      assert (init + [Last(rs) + [r]])[..|init|] == init;
    }
    assert Flushed(OpenGroup(p), r) == [];
  }

  /** A record with another name closes the open group and opens its own. */
  lemma ProgressOpen(p: seq<Record>, r: Record)
    requires p != [] && Last(Runs(p))[0].name != r.name
    ensures OpenGroup(p + [r]) == Stored(OpenGroup(p), r)
    ensures Written(p + [r]) == Written(p) + Flushed(OpenGroup(p), r)
  {
    OpenNewGroup(p, r);
    OpenWritten(p, r);
  }

  lemma OpenNewGroup(p: seq<Record>, r: Record)
    requires p != [] && Last(Runs(p))[0].name != r.name
    ensures OpenGroup(p + [r]) == Stored(OpenGroup(p), r)
  {
    assert Last(Runs(p + [r])) == [r] by { RunsOpen(p, r); }
    SummarySingle(r);
  }

  lemma OpenWritten(p: seq<Record>, r: Record)
    requires p != [] && Last(Runs(p))[0].name != r.name
    ensures Written(p + [r]) == Written(p) + Flushed(OpenGroup(p), r)
  {
    var rs: seq<seq<Record>>, last := Runs(p), Last(Runs(p));
    var rs': seq<seq<Record>> := Runs(p + [r]);
    assert rs'[..|rs'| - 1] == rs by { RunsOpen(p, r); }
    assert Flushed(OpenGroup(p), r) == [Representative(last)];
    assert Emit(rs) == Emit(rs[..|rs| - 1]) + [Representative(last)] by {
      InitLast(rs);
      EmitSnoc(rs[..|rs| - 1], last);
    }
  }

  /** The final flush completes the output. */
  lemma ProgressEnd(s: seq<Record>)
    ensures Written(s) + ProcessGroup(OpenGroup(s)) == Consolidate(s)
  {
    if s != [] {
      var rs: seq<seq<Record>> := Runs(s);
      assert Emit(rs) == Emit(rs[..|rs| - 1]) + [Representative(Last(rs))] by {
        InitLast(rs);
        EmitSnoc(rs[..|rs| - 1], Last(rs));
      }
    }
  }
}
