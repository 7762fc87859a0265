/**
 * `extract_SAM_info` (allen_deduper.py:23-52): the fields of one alignment
 * line the deduper needs. Field numbers follow section 1.4 of the SAM/BAM
 * Format Specification: 0 QNAME, 1 FLAG, 2 RNAME, 3 POS, 5 CIGAR.
 */
module SamRecord {
  import opened Wrappers
  import opened Text

  datatype Strand = Plus | Minus

  /** The script's `linedict`. */
  datatype Info = Info(umi: string, chromosome: string, position: int, cigar: string, strand: Strand)

  /**
   * `(bitwise & 16) == 16`: bit 0x10 of FLAG marks the reverse strand, that
   * is, FLAG modulo 32 is at least 16 (for a negative FLAG too, since
   * Python's `&` reads it in two's complement).
   */
  function StrandOf(flag: int): (s: Strand)
    ensures s == Minus <==> flag % 32 >= 16
  {
    BitFour(flag);
    if (flag / 16) % 2 == 1 then Minus else Plus
  }

  /** Bit 4 of an integer, read by halving, agrees with its residue modulo 32. */
  lemma BitFour(flag: int)
    ensures (flag / 16) % 2 == 1 <==> flag % 32 >= 16
  {
    var q, r := flag / 32, flag % 32;
    assert flag == 32 * q + r && 0 <= r < 32;
    assert flag == 16 * (2 * q + r / 16) + r % 16;
    assert flag / 16 == 2 * q + r / 16;
  }

  /**
   * Only bit 0x10 decides the strand: whatever the bits above it (in two's
   * complement, as Python's `&` reads a negative int) and below it.
   */
  lemma StrandOfBit(high: int, low: int)
    requires 0 <= low < 16
    ensures StrandOf(32 * high + 16 + low) == Minus
    ensures StrandOf(32 * high + low) == Plus
  {
    assert 32 * high + 16 + low == 16 * (2 * high + 1) + low;
    assert (32 * high + 16 + low) / 16 == 2 * high + 1;
    assert 32 * high + low == 16 * (2 * high) + low;
    assert (32 * high + low) / 16 == 2 * high;
  }

  /** The UMI: the text after the last `:` of the read name. */
  function UmiOf(qname: string): (umi: string)
    ensures ':' !in umi
    ensures |umi| <= |qname| && qname[|qname| - |umi|..] == umi
    ensures |umi| == |qname| || qname[|qname| - |umi| - 1] == ':'
  {
    SplitLast(qname, ':');
    var parts := Split(qname, ':');
    parts[|parts| - 1]
  }

  /**
   * Whatever colons the read name holds before it, a colon-free tail
   * written after the last colon is exactly what UmiOf extracts.
   */
  lemma UmiOfSuffix(prefix: string, umi: string)
    requires ':' !in umi
    ensures UmiOf(prefix + [':'] + umi) == umi
  {
    var qname := prefix + [':'] + umi;
    var parts := Split(qname, ':');
    var last := parts[|parts| - 1];
    SplitLast(qname, ':');
    var n := |qname|;
    assert qname[n - |umi| - 1] == ':';
    assert qname[n - |umi|..] == umi;
  }

  /**
   * The script's extraction, with the exceptions it can raise: an index
   * past the last field is IndexError, a FLAG or POS that `int()` rejects is
   * ValueError. The checks happen in the order the script reads the fields:
   * field 2, then field 3 (read and parsed), then field 5, then field 1.
   */
  function ExtractSamInfo(line: string): (r: Result<Info>)
    ensures var f := Split(line, '\t');
      r.Ok? <==> |f| >= 6 && ParseInt(f[3]).Ok? && ParseInt(f[1]).Ok?
    ensures var f := Split(line, '\t');
      r.Err? ==> r.error == (if |f| < 4 || (ParseInt(f[3]).Ok? && |f| < 6) then IndexError else ValueError)
    ensures var f := Split(line, '\t');
      r.Ok? ==> (r.value.chromosome == f[2] && r.value.cigar == f[5]
                 && r.value.position == ParseInt(f[3]).value
                 && r.value.strand == StrandOf(ParseInt(f[1]).value))
    ensures var f := Split(line, '\t');
      r.Ok? ==> (':' !in r.value.umi && |r.value.umi| <= |f[0]|
                 && f[0][|f[0]| - |r.value.umi|..] == r.value.umi
                 && (|r.value.umi| == |f[0]| || f[0][|f[0]| - |r.value.umi| - 1] == ':'))
  {
    var f := Split(line, '\t');
    if |f| < 4 then Err(IndexError)
    else
      var pos := ParseInt(f[3]);
      if pos.Err? then Err(pos.error)
      else if |f| < 6 then Err(IndexError)
      else
        var flag := ParseInt(f[1]);
        if flag.Err? then Err(flag.error)
        else
          Ok(Info(UmiOf(f[0]), f[2], pos.value, f[5], StrandOf(flag.value)))
  }

  /**
   * Extraction reads back a line assembled from tab-free fields: the UMI
   * written after the read name's last colon, the chromosome, the position
   * and the CIGAR, and the strand from the flag.
   */
  lemma ExtractFromFields(fields: seq<string>, name: string, umi: string, flag: nat, pos: nat)
    requires |fields| >= 6
    requires forall i :: 0 <= i < |fields| ==> '\t' !in fields[i]
    requires ':' !in umi && fields[0] == name + [':'] + umi
    requires fields[1] == ShowNat(flag) && fields[3] == ShowNat(pos)
    ensures ExtractSamInfo(Join(fields, '\t'))
      == Ok(Info(umi, fields[2], pos, fields[5], StrandOf(flag)))
  {
    SplitJoin(fields, '\t');
    ParseIntOfShow(flag);
    ParseIntOfShow(pos);
    UmiOfSuffix(name, umi);
  }

  /** A line with fewer than six tab-separated fields is always rejected. */
  lemma ShortLineRejected(line: string)
    requires |Split(line, '\t')| < 6
    ensures ExtractSamInfo(line).Err?
  {
  }
}
