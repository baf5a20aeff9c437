/** Alignment records as the three tools see them once the record library has
    decoded them. Field ranges follow the SAM format specification (SAMv1):
    section 1.4 for the flag bits and the value ranges, section 4.2 for the
    BAM encoding of positions (0-based) and of CIGAR operations. */
module Sam {

  datatype Option<T> = None | Some(value: T)

  const Int32Max: int := 0x7FFF_FFFF

  /** Index into the reference table; -1 stands for "no reference". */
  type RefId = x: int | -1 <= x <= Int32Max

  /** 0-based leftmost position, -1 when there is none (SAM POS 0..2^31-1). */
  type Pos = x: int | -1 <= x < Int32Max

  /** Signed observed template length; SAM bounds it by 2^31 - 1 on both sides. */
  type TemplateLen = x: int | -Int32Max <= x <= Int32Max

  /** Mapping quality, an unsigned byte. */
  type MapQ = x: int | 0 <= x < 256

  /** CIGAR operation length, 28 bits in BAM. */
  type OpLen = x: int | 0 <= x < 0x1000_0000

  /** The 16-bit FLAG field. */
  type Flag = bv16

  const FlagPaired: Flag := 0x1
  const FlagProperPair: Flag := 0x2
  const FlagUnmapped: Flag := 0x4
  const FlagReverse: Flag := 0x10
  const FlagMateReverse: Flag := 0x20
  const FlagRead1: Flag := 0x40
  const FlagRead2: Flag := 0x80
  const FlagSupplementary: Flag := 0x800

  /** True iff the given bit is set in the flag. */
  predicate Has(f: Flag, bit: Flag) {
    f & bit != 0
  }

  /** CIGAR operations, in the order of their BAM codes 0..8 (M I D N S H P = X). */
  datatype CigarOp =
    | Match        // M, 0
    | Ins          // I, 1
    | Del          // D, 2
    | RefSkip      // N, 3
    | SoftClip     // S, 4
    | HardClip     // H, 5
    | Pad          // P, 6
    | SeqMatch     // =, 7
    | SeqMismatch  // X, 8

  datatype CigarElem = CigarElem(op: CigarOp, len: OpLen)

  /** The fields of one alignment record that the tools read or write. */
  datatype Record = Record(
    name: string,
    tid: RefId,
    pos: Pos,
    mapq: MapQ,
    flag: Flag,
    cigar: seq<CigarElem>,
    mtid: RefId,
    mpos: Pos,
    isize: TemplateLen)

  /** A prefix one longer is the shorter prefix and the next element. */
  lemma PrefixSnoc<T>(s: seq<T>, i: nat)
    requires i < |s|
    ensures s[..i + 1] == s[..i] + [s[i]]
  {
  }

  /** One entry of the reference table of a header: sequence name and length. */
  datatype Target = Target(name: string, len: nat)
}
