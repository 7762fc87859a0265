/**
 * `pos_adj` (allen_deduper.py:54-93): the position a read is grouped by.
 * The CIGAR string is read the way the script reads it, as two regex token
 * lists paired by index: the upper-case letters and the digit runs.
 */
module Cigar {
  import opened Wrappers
  import opened Text
  import opened SamRecord

  // ---------------------------------------------------------------------
  // Tokenising: re.findall(r'[A-Z]', s) and re.findall(r'\d+', s)

  /** `re.findall(r'[A-Z]', s)`: every upper-case letter, in order. */
  function Letters(s: string): (letters: seq<char>)
    ensures |letters| <= |s|
    ensures forall i :: 0 <= i < |letters| ==> IsUpper(letters[i])
  {
    if s == [] then [] else (if IsUpper(s[0]) then [s[0]] else []) + Letters(s[1..])
  }

  /** The length of the digit run that starts s. */
  function DigitRunLength(s: string): (k: nat)
    ensures k <= |s| && AllDigits(s[..k])
    ensures k < |s| ==> !IsDigit(s[k])
    ensures s != [] && IsDigit(s[0]) ==> k > 0
  {
    if s != [] && IsDigit(s[0]) then 1 + DigitRunLength(s[1..]) else 0
  }

  /** `[int(t) for t in re.findall(r'\d+', s)]`: every maximal digit run, as a number. */
  function Numbers(s: string): (numbers: seq<nat>)
    ensures |numbers| <= |s|
    decreases |s|
  {
    if s == [] then []
    else if !IsDigit(s[0]) then Numbers(s[1..])
    else
      var k := DigitRunLength(s);
      [DecimalValue(s[..k])] + Numbers(s[k..])
  }

  /** One CIGAR operation: a length and an operation code (section 1.4 of SAMv1). */
  datatype CigarOp = CigarOp(len: nat, code: char)

  function Codes(ops: seq<CigarOp>): (codes: seq<char>)
    ensures |codes| == |ops| && forall i :: 0 <= i < |ops| ==> codes[i] == ops[i].code
  {
    seq(|ops|, i requires 0 <= i < |ops| => ops[i].code)
  }

  function Lengths(ops: seq<CigarOp>): (lens: seq<nat>)
    ensures |lens| == |ops| && forall i :: 0 <= i < |ops| ==> lens[i] == ops[i].len
  {
    seq(|ops|, i requires 0 <= i < |ops| => ops[i].len)
  }

  /** The CIGAR text of a list of operations, e.g. `5S95M`. */
  function Render(ops: seq<CigarOp>): string {
    if ops == [] then [] else ShowNat(ops[0].len) + [ops[0].code] + Render(ops[1..])
  }

  predicate ValidCodes(ops: seq<CigarOp>) {
    forall i :: 0 <= i < |ops| ==> IsUpper(ops[i].code)
  }

  lemma {:induction false} LettersAppend(a: string, b: string)
    ensures Letters(a + b) == Letters(a) + Letters(b)
  {
    if a != [] {
      assert (a + b)[0] == a[0] && (a + b)[1..] == a[1..] + b;
      LettersAppend(a[1..], b);
    } else {
      assert a + b == b;
    }
  }

  lemma {:induction false} LettersOfDigits(d: string)
    requires AllDigits(d)
    ensures Letters(d) == []
  {
    if d != [] {
      LettersOfDigits(d[1..]);
    }
  }

  /** The letter tokens of a rendered CIGAR are its operation codes. */
  lemma {:induction false} LettersOfRender(ops: seq<CigarOp>)
    requires ValidCodes(ops)
    ensures Letters(Render(ops)) == Codes(ops)
  {
    if ops != [] {
      var d := ShowNat(ops[0].len);
      LettersOfRender(ops[1..]);
      LettersAppend(d + [ops[0].code], Render(ops[1..]));
      LettersAppend(d, [ops[0].code]);
      LettersOfDigits(d);
      assert Letters([ops[0].code]) == [ops[0].code];
      assert Codes(ops) == [ops[0].code] + Codes(ops[1..]);
    }
  }

  lemma {:induction false} DigitRunOfDigits(d: string, t: string)
    requires AllDigits(d)
    ensures DigitRunLength(d + t) == |d| + DigitRunLength(t)
  {
    if d != [] {
      assert (d + t)[0] == d[0] && (d + t)[1..] == d[1..] + t;
      DigitRunOfDigits(d[1..], t);
    } else {
      assert d + t == t;
    }
  }

  /** The number tokens of a rendered CIGAR are its operation lengths. */
  lemma {:induction false} NumbersOfRender(ops: seq<CigarOp>)
    requires ValidCodes(ops)
    ensures Numbers(Render(ops)) == Lengths(ops)
  {
    if ops != [] {
      var d := ShowNat(ops[0].len);
      var c := ops[0].code;
      var rest := Render(ops[1..]);
      var s := Render(ops);
      assert s == d + ([c] + rest);
      NumbersOfRender(ops[1..]);
      DigitRunOfDigits(d, [c] + rest);
      assert DigitRunLength(s) == |d|;
      assert s[..|d|] == d && s[|d|..] == [c] + rest;
      DecimalValueOfShowNat(ops[0].len);
      assert ([c] + rest)[1..] == rest;
      assert Numbers([c] + rest) == Numbers(rest);
      assert Lengths(ops) == [ops[0].len] + Lengths(ops[1..]);
    }
  }

  // ---------------------------------------------------------------------
  // The adjustment, on the two token lists

  /** Whether the reverse-strand tally reads `numbers[i]`: M, D and N always, S only as the last op. */
  predicate CountsOnMinus(letters: seq<char>, i: nat)
    requires i < |letters|
  {
    letters[i] == 'M' || letters[i] == 'D' || letters[i] == 'N'
    || (letters[i] == 'S' && i == |letters| - 1)
  }

  /** Every `numbers[i]` the reverse-strand tally reads is there. */
  predicate Indexable(letters: seq<char>, numbers: seq<nat>) {
    forall i :: 0 <= i < |letters| && CountsOnMinus(letters, i) ==> i < |numbers|
  }

  /** The sum of numbers[i] over the first n letters equal to c. */
  function Tally(letters: seq<char>, numbers: seq<nat>, c: char, n: nat): nat
    requires n <= |letters|
  {
    if n == 0 then 0
    else
      var here := if letters[n - 1] == c && n - 1 < |numbers| then numbers[n - 1] else 0;
      Tally(letters, numbers, c, n - 1) + here
  }

  /** The length of a soft clip that is the last operation, else 0. */
  function EndClip(letters: seq<char>, numbers: seq<nat>): nat {
    var last := |letters| - 1;
    if |letters| > 0 && letters[last] == 'S' && last < |numbers| then numbers[last] else 0
  }

  /**
   * The adjusted position. Forward strand: a leading soft clip moves the
   * position back by its length; no leading clip leaves it. Reverse strand:
   * position - 1 plus every M, D and N length plus a trailing soft clip.
   * A missing token is the script's IndexError.
   */
  function AdjustedPosition(strand: Strand, pos: int, letters: seq<char>, numbers: seq<nat>): (r: Result<int>)
    ensures r.Err? ==> r.error == IndexError
    ensures strand == Plus ==> (r.Err? <==> |letters| == 0 || (letters[0] == 'S' && |numbers| == 0))
    ensures strand == Minus ==> (r.Err? <==> !Indexable(letters, numbers))
    ensures strand == Plus && r.Ok? ==> r.value <= pos
  {
    match strand
    case Plus =>
      if |letters| == 0 then Err(IndexError)
      else if letters[0] != 'S' then Ok(pos)
      else if |numbers| == 0 then Err(IndexError)
      else Ok(pos - numbers[0])
    case Minus =>
      if !Indexable(letters, numbers) then Err(IndexError)
      else Ok(pos - 1 + Tally(letters, numbers, 'M', |letters|) + Tally(letters, numbers, 'D', |letters|)
              + Tally(letters, numbers, 'N', |letters|) + EndClip(letters, numbers))
  }

  /** `pos_adj` on a record: only the position changes. */
  function Adjusted(info: Info): (r: Result<Info>)
    ensures r.Ok? ==> r.value == info.(position := r.value.position)
    ensures r.Err? ==> r.error == IndexError
  {
    var p := AdjustedPosition(info.strand, info.position, Letters(info.cigar), Numbers(info.cigar));
    if p.Err? then Err(p.error) else Ok(info.(position := p.value))
  }

  /**
   * The script's `pos_adj`: on the reverse strand a loop over the letters
   * tallies M, D, N and a final S into four counters.
   */
  method PosAdj(info: Info) returns (r: Result<Info>)
    ensures r == Adjusted(info)
  {
    var letters := Letters(info.cigar);
    var numbers := Numbers(info.cigar);
    if info.strand == Plus {
      if |letters| == 0 {
        return Err(IndexError);
      }
      if letters[0] == 'S' {
        if |numbers| == 0 {
          return Err(IndexError);
        }
        return Ok(info.(position := info.position - numbers[0]));
      }
      return Ok(info);
    }
    var m, d, n, s := 0, 0, 0, 0;
    for i := 0 to |letters|
      invariant forall j :: 0 <= j < i && CountsOnMinus(letters, j) ==> j < |numbers|
      invariant m == Tally(letters, numbers, 'M', i)
      invariant d == Tally(letters, numbers, 'D', i)
      invariant n == Tally(letters, numbers, 'N', i)
      invariant s == if i == |letters| then EndClip(letters, numbers) else 0
    {
      if letters[i] == 'M' {
        if i >= |numbers| {
          assert CountsOnMinus(letters, i);
          return Err(IndexError);
        }
        m := m + numbers[i];
      }
      if letters[i] == 'D' {
        if i >= |numbers| {
          assert CountsOnMinus(letters, i);
          return Err(IndexError);
        }
        d := d + numbers[i];
      }
      if letters[i] == 'N' {
        if i >= |numbers| {
          assert CountsOnMinus(letters, i);
          return Err(IndexError);
        }
        n := n + numbers[i];
      }
      if letters[i] == 'S' && i == |letters| - 1 {
        if i >= |numbers| {
          assert CountsOnMinus(letters, i);
          return Err(IndexError);
        }
        s := s + numbers[i];
      }
    }
    return Ok(info.(position := m + d + s + n + info.position - 1));
  }

  // ---------------------------------------------------------------------
  // The adjustment on well-formed operation lists

  /** The adjustment of a CIGAR whose two token lists pair up one to one. */
  function AdjustOps(strand: Strand, pos: int, ops: seq<CigarOp>): Result<int> {
    AdjustedPosition(strand, pos, Codes(ops), Lengths(ops))
  }

  /** The total length of the operations with code c. */
  function SumOf(ops: seq<CigarOp>, c: char): nat {
    if ops == [] then 0 else (if ops[0].code == c then ops[0].len else 0) + SumOf(ops[1..], c)
  }

  /** The length of a soft clip that ends the alignment, else 0. */
  function TrailingClip(ops: seq<CigarOp>): nat {
    if |ops| > 0 && ops[|ops| - 1].code == 'S' then ops[|ops| - 1].len else 0
  }

  lemma {:induction false} SumOfAppend(a: seq<CigarOp>, b: seq<CigarOp>, c: char)
    ensures SumOf(a + b, c) == SumOf(a, c) + SumOf(b, c)
  {
    if a == [] {
      assert a + b == b;
    } else {
      assert (a + b)[0] == a[0] && (a + b)[1..] == a[1..] + b;
      SumOfAppend(a[1..], b, c);
    }
  }

  lemma {:induction false} TallyOfOps(ops: seq<CigarOp>, c: char, n: nat)
    requires n <= |ops|
    ensures Tally(Codes(ops), Lengths(ops), c, n) == SumOf(ops[..n], c)
  {
    if n > 0 {
      TallyOfOps(ops, c, n - 1);
      assert ops[..n] == ops[..n - 1] + [ops[n - 1]];
      SumOfAppend(ops[..n - 1], [ops[n - 1]], c);
    }
  }

  /**
   * Forward strand: an empty CIGAR is an IndexError; a leading soft clip
   * moves the position back by its length; otherwise nothing changes.
   */
  lemma PlusStrandFormula(pos: int, ops: seq<CigarOp>)
    ensures AdjustOps(Plus, pos, ops)
      == if ops == [] then Err(IndexError)
         else if ops[0].code == 'S' then Ok(pos - ops[0].len)
         else Ok(pos)
  {
  }

  /**
   * Reverse strand: position - 1 plus the lengths of every M, D and N and
   * of a soft clip only when it is the last operation. I, H, P, X and a
   * leading S add nothing.
   */
  lemma MinusStrandFormula(pos: int, ops: seq<CigarOp>)
    ensures AdjustOps(Minus, pos, ops)
      == Ok(pos - 1 + SumOf(ops, 'M') + SumOf(ops, 'D') + SumOf(ops, 'N') + TrailingClip(ops))
  {
    TallyOfOps(ops, 'M', |ops|);
    TallyOfOps(ops, 'D', |ops|);
    TallyOfOps(ops, 'N', |ops|);
    assert ops[..|ops|] == ops;
  }

  /**
   * Forward strand: a read clipped by k at its start is grouped with the
   * unclipped read aligned k bases earlier.
   */
  lemma PlusLeadingClip(pos: int, k: nat, core: seq<CigarOp>)
    requires core != [] && core[0].code != 'S'
    ensures AdjustOps(Plus, pos, [CigarOp(k, 'S')] + core) == AdjustOps(Plus, pos - k, core)
  {
    PlusStrandFormula(pos, [CigarOp(k, 'S')] + core);
    PlusStrandFormula(pos - k, core);
  }

  /** Reverse strand: a soft clip at the start is not counted. */
  lemma MinusLeadingClipIgnored(pos: int, k: nat, core: seq<CigarOp>)
    requires core != []
    ensures AdjustOps(Minus, pos, [CigarOp(k, 'S')] + core) == AdjustOps(Minus, pos, core)
  {
    var ops := [CigarOp(k, 'S')] + core;
    MinusStrandFormula(pos, ops);
    MinusStrandFormula(pos, core);
    assert ops[1..] == core;
    assert ops[|ops| - 1] == core[|core| - 1];
  }

  /**
   * Reverse strand: a soft clip at the end counts as fully as a match, so
   * the adjusted position moves by its length.
   */
  lemma MinusTrailingClipCounted(pos: int, core: seq<CigarOp>, k: nat)
    requires core == [] || core[|core| - 1].code != 'S'
    ensures AdjustOps(Minus, pos, core + [CigarOp(k, 'S')]).Ok?
    ensures AdjustOps(Minus, pos, core + [CigarOp(k, 'S')]).value
      == AdjustOps(Minus, pos, core).value + k
  {
    var ops := core + [CigarOp(k, 'S')];
    MinusStrandFormula(pos, ops);
    MinusStrandFormula(pos, core);
    SumOfAppend(core, [CigarOp(k, 'S')], 'M');
    SumOfAppend(core, [CigarOp(k, 'S')], 'D');
    SumOfAppend(core, [CigarOp(k, 'S')], 'N');
  }

  /**
   * Reverse strand: an operation that consumes no reference (I, H, P, ...)
   * or a soft clip, anywhere but at the end, does not move the position.
   */
  lemma MinusIgnoresNonReferenceOps(pos: int, a: seq<CigarOp>, x: CigarOp, b: seq<CigarOp>)
    requires b != [] && x.code != 'M' && x.code != 'D' && x.code != 'N'
    ensures AdjustOps(Minus, pos, a + [x] + b) == AdjustOps(Minus, pos, a + b)
  {
    MinusStrandFormula(pos, a + [x] + b);
    MinusStrandFormula(pos, a + b);
    SumOfAppend(a + [x], b, 'M');
    SumOfAppend(a + [x], b, 'D');
    SumOfAppend(a + [x], b, 'N');
    SumOfAppend(a, [x], 'M');
    SumOfAppend(a, [x], 'D');
    SumOfAppend(a, [x], 'N');
    SumOfAppend(a, b, 'M');
    SumOfAppend(a, b, 'D');
    SumOfAppend(a, b, 'N');
    assert (a + [x] + b)[|a + [x] + b| - 1] == b[|b| - 1];
    assert (a + b)[|a + b| - 1] == b[|b| - 1];
  }

  /** A CIGAR text is adjusted as its operation list is. */
  lemma AdjustedOfRender(info: Info, ops: seq<CigarOp>)
    requires ValidCodes(ops) && info.cigar == Render(ops)
    ensures Adjusted(info).Ok? <==> AdjustOps(info.strand, info.position, ops).Ok?
    ensures Adjusted(info).Ok? ==>
      Adjusted(info).value.position == AdjustOps(info.strand, info.position, ops).value
  {
    LettersOfRender(ops);
    NumbersOfRender(ops);
  }

  /** `5S95M` on the forward strand at 100: grouped at 95. */
  lemma ForwardClipExample(umi: string, chrom: string)
    ensures Adjusted(Info(umi, chrom, 100, "5S95M", Plus)) == Ok(Info(umi, chrom, 95, "5S95M", Plus))
  {
    var ops := [CigarOp(5, 'S'), CigarOp(95, 'M')];
    assert ShowNat(5) == "5";
    assert ShowNat(95) == ShowNat(9) + "5" == "95";
    assert Render(ops[1..]) == "95M";
    assert Render(ops) == "5S95M";
    AdjustedOfRender(Info(umi, chrom, 100, "5S95M", Plus), ops);
  }

  /** `100M` on the forward strand at 100: unchanged. */
  lemma ForwardMatchExample(umi: string, chrom: string)
    ensures Adjusted(Info(umi, chrom, 100, "100M", Plus)) == Ok(Info(umi, chrom, 100, "100M", Plus))
  {
    var ops := [CigarOp(100, 'M')];
    assert ShowNat(100) == ShowNat(10) + "0" == ShowNat(1) + "0" + "0" == "100";
    assert Render(ops) == "100M";
    AdjustedOfRender(Info(umi, chrom, 100, "100M", Plus), ops);
  }

  /** `90M10S` on the reverse strand at 100: 100 - 1 + 90 + 10 = 199. */
  lemma ReverseTrailingClipExample(umi: string, chrom: string)
    ensures Adjusted(Info(umi, chrom, 100, "90M10S", Minus)) == Ok(Info(umi, chrom, 199, "90M10S", Minus))
  {
    var ops := [CigarOp(90, 'M'), CigarOp(10, 'S')];
    assert ShowNat(90) == ShowNat(9) + "0" == "90";
    assert ShowNat(10) == ShowNat(1) + "0" == "10";
    assert Render(ops[1..]) == "10S";
    assert Render(ops) == "90M10S";
    MinusStrandFormula(100, ops);
    assert ops[1..][1..] == [];
    assert SumOf(ops, 'M') == 90 && SumOf(ops, 'D') == 0 && SumOf(ops, 'N') == 0;
    assert TrailingClip(ops) == 10;
    assert AdjustOps(Minus, 100, ops) == Ok(199);
    var info := Info(umi, chrom, 100, "90M10S", Minus);
    AdjustedOfRender(info, ops);
  }

  /** `10S90M` on the reverse strand at 100: the leading clip is not counted, 100 - 1 + 90 = 189. */
  lemma ReverseLeadingClipExample(umi: string, chrom: string)
    ensures Adjusted(Info(umi, chrom, 100, "10S90M", Minus)) == Ok(Info(umi, chrom, 189, "10S90M", Minus))
  {
    var ops := [CigarOp(10, 'S'), CigarOp(90, 'M')];
    assert ShowNat(90) == ShowNat(9) + "0" == "90";
    assert ShowNat(10) == ShowNat(1) + "0" == "10";
    assert Render(ops[1..]) == "90M";
    assert Render(ops) == "10S90M";
    MinusStrandFormula(100, ops);
    assert ops[1..][1..] == [];
    assert SumOf(ops, 'M') == 90 && SumOf(ops, 'D') == 0 && SumOf(ops, 'N') == 0;
    assert TrailingClip(ops) == 0;
    assert AdjustOps(Minus, 100, ops) == Ok(189);
    var info := Info(umi, chrom, 100, "10S90M", Minus);
    AdjustedOfRender(info, ops);
  }

  /**
   * A CIGAR with no operation letter (`*`, unavailable): the forward strand
   * fails on `letters[0]`, the reverse strand just moves back by one.
   */
  lemma UnavailableCigar(info: Info)
    requires info.cigar == "*"
    ensures info.strand == Plus ==> Adjusted(info) == Err(IndexError)
    ensures info.strand == Minus ==> Adjusted(info) == Ok(info.(position := info.position - 1))
  {
    assert Letters(info.cigar) == [];
  }
}
