/**
 * `rev_comp` (allen_deduper.py:14-21): the reverse complement of a DNA
 * sequence, looked up base by base in the table A<->T, C<->G.
 */
module RevComp {
  import opened Wrappers

  predicate IsBase(c: char) { c == 'A' || c == 'C' || c == 'G' || c == 'T' }

  /**
   * The script's `basedict`: defined on the four bases only (any other
   * character is a KeyError) and never mapping a base to itself.
   */
  function Complement(c: char): (r: Option<char>)
    ensures r.Some? <==> IsBase(c)
    ensures r.Some? ==> IsBase(r.value) && r.value != c
  {
    match c
    case 'A' => Some('T')
    case 'T' => Some('A')
    case 'C' => Some('G')
    case 'G' => Some('C')
    case _ => None
  }

  predicate AllBases(s: string) { forall i :: 0 <= i < |s| ==> IsBase(s[i]) }

  /** Reference definition: the complement of the first base goes last. */
  function ReverseComplement(s: string): (r: Result<string>)
    ensures r.Ok? <==> AllBases(s)
    ensures r.Err? ==> r.error == KeyError
    ensures r.Ok? ==> |r.value| == |s| && AllBases(r.value)
  {
    if s == [] then Ok([])
    else
      var c := Complement(s[0]);
      var tail := ReverseComplement(s[1..]);
      if c.None? then Err(KeyError)
      else if tail.Err? then tail
      else Ok(tail.value + [c.value])
  }

  /** Position k of the result is the complement of position |s| - 1 - k of the input. */
  lemma {:induction false} ReverseComplementAt(s: string, k: nat)
    requires AllBases(s) && k < |s|
    ensures Complement(s[|s| - 1 - k]) == Some(ReverseComplement(s).value[k])
  {
    var tail := ReverseComplement(s[1..]).value;
    if k < |s| - 1 {
      ReverseComplementAt(s[1..], k);
      assert s[1..][|s| - 2 - k] == s[|s| - 1 - k];
    }
  }

  /** The reverse complement of a concatenation swaps and complements the parts. */
  lemma {:induction false} ReverseComplementAppend(a: string, b: string)
    requires AllBases(a) && AllBases(b)
    ensures ReverseComplement(a + b) == Ok(ReverseComplement(b).value + ReverseComplement(a).value)
  {
    if a == [] {
      assert a + b == b;
      assert ReverseComplement(b).value + ReverseComplement(a).value == ReverseComplement(b).value;
    } else {
      assert (a + b)[0] == a[0] && (a + b)[1..] == a[1..] + b;
      assert AllBases(a + b) && AllBases(a[1..]);
      ReverseComplementAppend(a[1..], b);
      var c := Complement(a[0]).value;
      assert ReverseComplement(a).value == ReverseComplement(a[1..]).value + [c];
      assert ReverseComplement(a + b).value == ReverseComplement(a[1..] + b).value + [c];
      assert ReverseComplement(a + b).Ok?;
      assert ReverseComplement(a[1..] + b).value == ReverseComplement(b).value + ReverseComplement(a[1..]).value;
      assert ReverseComplement(a + b).value == ReverseComplement(b).value + ReverseComplement(a).value;
    }
  }

  /** On A/C/G/T strings, taking the reverse complement twice gives the input back. */
  lemma {:induction false} ReverseComplementInvolution(s: string)
    requires AllBases(s)
    ensures ReverseComplement(ReverseComplement(s).value) == Ok(s)
  {
    if s != [] {
      var tail := ReverseComplement(s[1..]).value;
      var c := Complement(s[0]).value;
      ReverseComplementInvolution(s[1..]);
      ReverseComplementAppend(tail, [c]);
      assert Complement(c) == Some(s[0]) && IsBase(c);
      assert [c][1..] == [];
      assert ReverseComplement([c]) == Ok([] + [s[0]]);
      assert ReverseComplement(s).value == tail + [c];
      assert ReverseComplement(tail + [c]).value == [s[0]] + ReverseComplement(tail).value;
      assert s == [s[0]] + s[1..];
    }
  }

  /**
   * The script's loop: walk the reversed sequence and append each base's
   * complement; the first base outside the table raises KeyError.
   */
  method RevComp(s: string) returns (r: Result<string>)
    ensures r == ReverseComplement(s)
  {
    var rev := seq(|s|, i requires 0 <= i < |s| => s[|s| - 1 - i]);
    var bases: string := [];
    for i := 0 to |rev|
      invariant AllBases(s[|s| - i..])
      invariant ReverseComplement(s[|s| - i..]) == Ok(bases)
    {
      var c := Complement(rev[i]);
      if c.None? {
        assert s[|s| - 1 - i..][0] == rev[i];
        return Err(KeyError);
      }
      assert s[|s| - 1 - i..][1..] == s[|s| - i..];
      bases := bases + [c.value];
    }
    assert s[|s| - |rev|..] == s;
    return Ok(bases);
  }
}
