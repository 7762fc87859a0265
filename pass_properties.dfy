/**
 * What the script's loop (allen_deduper.py:130-206) guarantees about a
 * whole file: when it runs to the end, which header lines it writes, and
 * that each chromosome run is deduplicated on its own.
 */
module PassProperties {
  import opened Wrappers
  import opened SamRecord
  import opened Cigar
  import opened Groups
  import opened Deduper

  /** A line the pass takes in without raising: an alignment whose position adjusts. */
  predicate Good(p: Parsed) {
    p.Alignment? && p.adjusted.Ok?
  }

  /** Good alignment lines, all on chromosome `c`. */
  predicate OnChromosome(ps: seq<Parsed>, c: string) {
    forall i :: 0 <= i < |ps| ==> Good(ps[i]) && ps[i].chrom == c
  }

  predicate AllGood(ps: seq<Parsed>) {
    forall i :: 0 <= i < |ps| ==> Good(ps[i])
  }

  /** The entries good alignment lines file, in order. */
  function EntriesOf(ps: seq<Parsed>): (es: seq<Entry>)
    requires AllGood(ps)
    ensures |es| == |ps|
    ensures forall i :: 0 <= i < |ps| ==> es[i] == ps[i].adjusted.value
  {
    if ps == [] then [] else EntriesOf(ps[..|ps| - 1]) + [ps[|ps| - 1].adjusted.value]
  }

  /** Feeding two pieces is feeding the first, then the second from where it stopped. */
  lemma {:induction false} FeedAppend(s: Scan, a: seq<Parsed>, b: seq<Parsed>, umis: seq<string>)
    ensures Feed(s, a + b, umis) == match Feed(s, a, umis)
      case Next(t) => Feed(t, b, umis)
      case Stop(w, e) => Stop(w, e)
    decreases |b|
  {
    if b == [] {
      assert a + b == a;
    } else {
      var b' := b[..|b| - 1];
      assert (a + b)[..|a + b| - 1] == a + b';
      assert (a + b)[|a + b| - 1] == b[|b| - 1];
      FeedAppend(s, a, b', umis);
    }
  }

  // ---------------------------------------------------------------------
  // When the pass completes

  /**
   * The pass runs to the end of the file exactly when every line is a
   * header or a good alignment line; otherwise it raises.
   */
  lemma {:induction false} FeedNextIff(s: Scan, ps: seq<Parsed>, umis: seq<string>)
    ensures Feed(s, ps, umis).Next? <==> forall i :: 0 <= i < |ps| ==> ps[i].Header? || Good(ps[i])
  {
    if ps != [] {
      var p := ps[..|ps| - 1];
      FeedNextIff(s, p, umis);
      assert forall i :: 0 <= i < |p| ==> p[i] == ps[i];
    }
  }

  /**
   * A non-header line is unreadable exactly when `extract_SAM_info` raises,
   * and is good exactly when both its extraction and its adjustment
   * succeed; a good line is filed under its UMI, adjusted position and
   * strand, and an adjustment error is IndexError.
   */
  lemma ClassifyGood(line: string)
    ensures Classify(line).Unreadable? <==> !IsHeader(line) && ExtractSamInfo(line).Err?
    ensures Classify(line).Unreadable? ==> Classify(line).error == ExtractSamInfo(line).error
    ensures Good(Classify(line)) <==>
      !IsHeader(line) && ExtractSamInfo(line).Ok? && Adjusted(ExtractSamInfo(line).value).Ok?
    ensures Classify(line).Alignment? ==> Classify(line).chrom == ExtractSamInfo(line).value.chromosome
    ensures Classify(line).Alignment? && Classify(line).adjusted.Err? ==> Classify(line).adjusted.error == IndexError
    ensures Good(Classify(line)) ==>
      var info := ExtractSamInfo(line).value;
      Classify(line).adjusted.value
        == Entry(Key(info.umi, Adjusted(info).value.position, info.strand), line)
  {
  }

  /**
   * The script writes its whole output and prints the total exactly when
   * every line is a header or an alignment line whose fields extract and
   * whose CIGAR adjusts the position.
   */
  lemma PassCompletesIff(lines: seq<string>, umis: seq<string>)
    ensures Pass(lines, umis).Completed? <==>
      forall i :: 0 <= i < |lines| ==>
        IsHeader(lines[i]) || (ExtractSamInfo(lines[i]).Ok? && Adjusted(ExtractSamInfo(lines[i]).value).Ok?)
  {
    FeedNextIff(Start, Parse(lines), umis);
    forall i | 0 <= i < |lines|
      ensures Parse(lines)[i].Header? || Good(Parse(lines)[i]) <==>
        IsHeader(lines[i]) || (ExtractSamInfo(lines[i]).Ok? && Adjusted(ExtractSamInfo(lines[i]).value).Ok?)
    {
      ClassifyGood(lines[i]);
    }
  }

  // ---------------------------------------------------------------------
  // Chromosome runs

  /** Lines of the current chromosome only join its run. */
  lemma {:induction false} FeedRun(s: Scan, ps: seq<Parsed>, c: string, umis: seq<string>)
    requires s.chr == None || s.chr == Some(c)
    requires OnChromosome(ps, c)
    ensures Feed(s, ps, umis)
      == Next(Scan(s.out, s.run + EntriesOf(ps), if ps == [] then s.chr else Some(c), s.total))
  {
    if ps == [] {
      assert s.run + [] == s.run;
    } else {
      var p, x := ps[..|ps| - 1], ps[|ps| - 1];
      assert OnChromosome(p, c) by {
        assert forall i :: 0 <= i < |p| ==> p[i] == ps[i];
      }
      FeedRun(s, p, c, umis);
      assert (s.run + EntriesOf(p)) + [x.adjusted.value] == s.run + EntriesOf(ps);
    }
  }

  /**
   * Lines of a new chromosome first flush the finished run, with its kept
   * lines and its wrong-UMI count, then start a run of their own.
   */
  lemma {:induction false} FeedNewRun(s: Scan, ps: seq<Parsed>, c: string, umis: seq<string>)
    requires s.chr.Some? && s.chr != Some(c)
    requires ps != [] && OnChromosome(ps, c)
    ensures Feed(s, ps, umis)
      == Next(Scan(s.out + Kept(s.run, umis), EntriesOf(ps), Some(c), s.total + Wrong(s.run, umis)))
  {
    var p := ps[..|ps| - 1];
    if p == [] {
      assert EntriesOf(ps) == [ps[0].adjusted.value];
    } else {
      assert OnChromosome(p, c) by {
        assert forall i :: 0 <= i < |p| ==> p[i] == ps[i];
      }
      FeedNewRun(s, p, c, umis);
    }
  }

  /** A file holding one chromosome's alignments: its first-wins lines and its wrong-UMI count. */
  lemma SingleRun(ps: seq<Parsed>, c: string, umis: seq<string>)
    requires ps != [] && OnChromosome(ps, c)
    ensures Run(ps, umis) == Completed(Kept(EntriesOf(ps), umis), Wrong(EntriesOf(ps), umis))
  {
    FeedRun(Start, ps, c, umis);
    assert [] + EntriesOf(ps) == EntriesOf(ps);
    assert [] + Kept(EntriesOf(ps), umis) == Kept(EntriesOf(ps), umis);
  }

  /**
   * Runs of alignment lines, each on one chromosome, neighbouring runs on
   * different chromosomes.
   */
  predicate Runs(rs: seq<seq<Parsed>>, chrs: seq<string>) {
    && |rs| == |chrs|
    && (forall i :: 0 <= i < |rs| ==> rs[i] != [] && OnChromosome(rs[i], chrs[i]))
    && (forall i :: 0 < i < |rs| ==> chrs[i - 1] != chrs[i])
  }

  function Flatten(rs: seq<seq<Parsed>>): seq<Parsed> {
    if rs == [] then [] else Flatten(rs[..|rs| - 1]) + rs[|rs| - 1]
  }

  predicate EachGood(rs: seq<seq<Parsed>>) {
    forall i :: 0 <= i < |rs| ==> AllGood(rs[i])
  }

  /** Each run's kept lines, one run after another. */
  function KeptRuns(rs: seq<seq<Parsed>>, umis: seq<string>): seq<string>
    requires EachGood(rs)
  {
    if rs == [] then [] else KeptRuns(rs[..|rs| - 1], umis) + Kept(EntriesOf(rs[|rs| - 1]), umis)
  }

  /** The sum of the runs' wrong-UMI counts. */
  function WrongRuns(rs: seq<seq<Parsed>>, umis: seq<string>): nat
    requires EachGood(rs)
  {
    if rs == [] then 0 else WrongRuns(rs[..|rs| - 1], umis) + Wrong(EntriesOf(rs[|rs| - 1]), umis)
  }

  lemma RunsPrefix(rs: seq<seq<Parsed>>, chrs: seq<string>)
    requires Runs(rs, chrs) && rs != []
    ensures Runs(rs[..|rs| - 1], chrs[..|chrs| - 1])
    ensures EachGood(rs) && EachGood(rs[..|rs| - 1])
  {
    forall i | 0 <= i < |rs|
      ensures AllGood(rs[i])
    {
      assert OnChromosome(rs[i], chrs[i]);
    }
  }

  /** After the runs have been read, all but the last have been flushed. */
  lemma {:induction false} FeedRuns(rs: seq<seq<Parsed>>, chrs: seq<string>, umis: seq<string>)
    requires Runs(rs, chrs) && rs != []
    ensures EachGood(rs) && EachGood(rs[..|rs| - 1])
    ensures var n := |rs| - 1;
      Feed(Start, Flatten(rs), umis)
        == Next(Scan(KeptRuns(rs[..n], umis), EntriesOf(rs[n]), Some(chrs[n]), WrongRuns(rs[..n], umis)))
  {
    RunsPrefix(rs, chrs);
    var n := |rs| - 1;
    var p := rs[..n];
    if n == 0 {
      assert Flatten(rs) == [] + rs[0];
      assert Flatten(rs) == rs[0];
      FeedRun(Start, rs[0], chrs[0], umis);
      assert [] + EntriesOf(rs[0]) == EntriesOf(rs[0]);
    } else {
      FeedRuns(p, chrs[..n], umis);
      FeedRunsStep(rs, chrs, umis);
    }
  }

  /** The step of FeedRuns: the last run flushes the one before it. */
  lemma FeedRunsStep(rs: seq<seq<Parsed>>, chrs: seq<string>, umis: seq<string>)
    requires Runs(rs, chrs) && |rs| > 1
    requires EachGood(rs[..|rs| - 1]) && EachGood(rs[..|rs| - 1][..|rs| - 2])
    requires var n := |rs| - 1; var p := rs[..n];
      Feed(Start, Flatten(p), umis)
        == Next(Scan(KeptRuns(p[..n - 1], umis), EntriesOf(p[n - 1]), Some(chrs[n - 1]), WrongRuns(p[..n - 1], umis)))
    ensures EachGood(rs)
    ensures var n := |rs| - 1;
      Feed(Start, Flatten(rs), umis)
        == Next(Scan(KeptRuns(rs[..n], umis), EntriesOf(rs[n]), Some(chrs[n]), WrongRuns(rs[..n], umis)))
  {
    RunsPrefix(rs, chrs);
    var n := |rs| - 1;
    var p := rs[..n];
    assert p[..n - 1] == rs[..n - 1] && p[n - 1] == rs[n - 1];
    var t := Feed(Start, Flatten(p), umis).scan;
    assert Flatten(rs) == Flatten(p) + rs[n];
    FeedAppend(Start, Flatten(p), rs[n], umis);
    assert rs[n] != [] && OnChromosome(rs[n], chrs[n]) && chrs[n - 1] != chrs[n];
    FeedNewRun(t, rs[n], chrs[n], umis);
    assert t.out + Kept(t.run, umis) == KeptRuns(p, umis);
    assert t.total + Wrong(t.run, umis) == WrongRuns(p, umis);
  }

  /**
   * A file whose alignments come in chromosome runs is deduplicated run by
   * run: the output is each run's first-wins lines in order and the total is
   * the sum of the runs' counts, so no key is compared across a chromosome
   * change.
   */
  lemma RunsIsolated(rs: seq<seq<Parsed>>, chrs: seq<string>, umis: seq<string>)
    requires Runs(rs, chrs) && rs != []
    ensures EachGood(rs)
    ensures Run(Flatten(rs), umis) == Completed(KeptRuns(rs, umis), WrongRuns(rs, umis))
  {
    FeedRuns(rs, chrs, umis);
  }

  // ---------------------------------------------------------------------
  // Header lines

  /** The header lines of a file, in order. */
  function Headers(lines: seq<string>): (hs: seq<string>)
    ensures forall l :: l in hs ==> IsHeader(l) && l in lines
  {
    if lines == [] then []
    else Headers(lines[..|lines| - 1]) + (if IsHeader(lines[|lines| - 1]) then [lines[|lines| - 1]] else [])
  }

  /** The header lines among classified lines, in order. */
  function HeaderLines(ps: seq<Parsed>): seq<string> {
    if ps == [] then []
    else HeaderLines(ps[..|ps| - 1]) + (if ps[|ps| - 1].Header? then [ps[|ps| - 1].line] else [])
  }

  lemma {:induction false} HeadersAppend(a: seq<string>, b: seq<string>)
    ensures Headers(a + b) == Headers(a) + Headers(b)
  {
    if b == [] {
      assert a + b == a;
    } else {
      var b' := b[..|b| - 1];
      assert (a + b)[..|a + b| - 1] == a + b';
      HeadersAppend(a, b');
    }
  }

  lemma {:induction false} NoHeaders(lines: seq<string>)
    requires forall l :: l in lines ==> !IsHeader(l)
    ensures Headers(lines) == []
  {
    if lines != [] {
      NoHeaders(lines[..|lines| - 1]);
    }
  }

  /** Classification keeps each header line and files no header line as an entry. */
  predicate Faithful(ps: seq<Parsed>) {
    && (forall i :: 0 <= i < |ps| && ps[i].Header? ==> IsHeader(ps[i].line))
    && (forall i :: 0 <= i < |ps| && Good(ps[i]) ==> !IsHeader(ps[i].adjusted.value.line))
  }

  /** Classified lines read back the file's headers and are faithful. */
  lemma ParseHeaders(lines: seq<string>)
    ensures HeaderLines(Parse(lines)) == Headers(lines)
    ensures Faithful(Parse(lines))
  {
    ParseHeaderLines(lines);
    forall i | 0 <= i < |lines|
      ensures Good(Parse(lines)[i]) ==> !IsHeader(Parse(lines)[i].adjusted.value.line)
    {
      ClassifyGood(lines[i]);
    }
  }

  lemma {:induction false} ParseHeaderLines(lines: seq<string>)
    ensures HeaderLines(Parse(lines)) == Headers(lines)
  {
    if lines != [] {
      var p, l := lines[..|lines| - 1], lines[|lines| - 1];
      ParseHeaderLines(p);
      assert lines == p + [l];
      ParseSnoc(p, l);
      var ps := Parse(lines);
      assert ps[..|ps| - 1] == Parse(p) && ps[|ps| - 1] == Classify(l);
    }
  }

  /** Flushing a run that holds no header line writes no header line. */
  lemma FlushNoHeaders(out: seq<string>, run: seq<Entry>, umis: seq<string>)
    requires forall e :: e in run ==> !IsHeader(e.line)
    ensures Headers(out + Kept(run, umis)) == Headers(out)
  {
    KeptFrom(run, umis);
    NoHeaders(Kept(run, umis));
    HeadersAppend(out, Kept(run, umis));
    assert Headers(out) + [] == Headers(out);
  }

  /**
   * Every header line read so far has been written, in order, and no
   * header line is waiting in the run.
   */
  lemma {:induction false} FeedHeaders(ps: seq<Parsed>, umis: seq<string>)
    requires Faithful(ps) && Feed(Start, ps, umis).Next?
    ensures Headers(Feed(Start, ps, umis).scan.out) == HeaderLines(ps)
    ensures forall e :: e in Feed(Start, ps, umis).scan.run ==> !IsHeader(e.line)
  {
    if ps != [] {
      var p, x := ps[..|ps| - 1], ps[|ps| - 1];
      assert forall i :: 0 <= i < |p| ==> p[i] == ps[i];
      FeedHeaders(p, umis);
      var t := Feed(Start, p, umis).scan;
      assert Feed(Start, ps, umis) == Step(t, x, umis);
      StepHeaders(t, x, umis);
    }
  }

  /** One step of FeedHeaders: a header is written at the end, anything else writes no header. */
  lemma StepHeaders(t: Scan, x: Parsed, umis: seq<string>)
    requires x.Header? ==> IsHeader(x.line)
    requires Good(x) ==> !IsHeader(x.adjusted.value.line)
    requires forall e :: e in t.run ==> !IsHeader(e.line)
    requires Step(t, x, umis).Next?
    ensures Headers(Step(t, x, umis).scan.out) == Headers(t.out) + (if x.Header? then [x.line] else [])
    ensures forall e :: e in Step(t, x, umis).scan.run ==> !IsHeader(e.line)
  {
    if x.Header? {
      assert (t.out + [x.line])[..|t.out|] == t.out;
    } else if !(t.chr == None || t.chr == Some(x.chrom)) {
      FlushNoHeaders(t.out, t.run, umis);
    } else {
      assert Headers(t.out) + [] == Headers(t.out);
    }
  }

  /**
   * Header lines are written verbatim: the output of a completed pass holds
   * exactly the input's header lines, in their order.
   */
  lemma PassHeaders(lines: seq<string>, umis: seq<string>)
    requires Pass(lines, umis).Completed?
    ensures Headers(Pass(lines, umis).output) == Headers(lines)
  {
    ParseHeaders(lines);
    FeedHeaders(Parse(lines), umis);
    var t := Feed(Start, Parse(lines), umis).scan;
    FlushNoHeaders(t.out, t.run, umis);
  }

  // ---------------------------------------------------------------------
  // Header lines change nothing else

  /** The lines of a file that are not header lines, in order. */
  function Body(lines: seq<string>): (bs: seq<string>)
    ensures forall l :: l in bs ==> !IsHeader(l)
  {
    if lines == [] then []
    else Body(lines[..|lines| - 1]) + (if IsHeader(lines[|lines| - 1]) then [] else [lines[|lines| - 1]])
  }

  /** Classified lines without the headers. */
  function Alignments(ps: seq<Parsed>): seq<Parsed> {
    if ps == [] then []
    else Alignments(ps[..|ps| - 1]) + (if ps[|ps| - 1].Header? then [] else [ps[|ps| - 1]])
  }

  /** Two states of the pass that differ at most in the header lines written. */
  predicate SameBody(s: Scan, t: Scan) {
    s.run == t.run && s.chr == t.chr && s.total == t.total && Body(s.out) == Body(t.out)
  }

  predicate SameProgress(a: Progress, b: Progress) {
    && (a.Next? <==> b.Next?)
    && (a.Next? && b.Next? ==> SameBody(a.scan, b.scan))
    && (a.Stop? && b.Stop? ==> a.error == b.error && Body(a.written) == Body(b.written))
  }

  lemma {:induction false} BodyAppend(a: seq<string>, b: seq<string>)
    ensures Body(a + b) == Body(a) + Body(b)
  {
    if b == [] {
      assert a + b == a;
    } else {
      var b' := b[..|b| - 1];
      assert (a + b)[..|a + b| - 1] == a + b';
      BodyAppend(a, b');
    }
  }

  /** A file with no header line is its own body. */
  lemma {:induction false} BodyOfHeaderless(lines: seq<string>)
    requires Headers(lines) == []
    ensures Body(lines) == lines
  {
    if lines != [] {
      var p, l := lines[..|lines| - 1], lines[|lines| - 1];
      assert Headers(p) == [] && !IsHeader(l);
      BodyOfHeaderless(p);
      assert lines == p + [l];
    }
  }

  /** Writing a header line leaves the body of the output as it was. */
  lemma HeaderStep(s: Scan, line: string, umis: seq<string>)
    requires IsHeader(line)
    ensures Step(s, Header(line), umis).Next? && SameBody(Step(s, Header(line), umis).scan, s)
  {
    BodyAppend(s.out, [line]);
    assert Body([line]) == [];
  }

  /** Any other line does the same to two states that differ only in header lines. */
  lemma StepSameBody(s: Scan, t: Scan, p: Parsed, umis: seq<string>)
    requires SameBody(s, t) && !p.Header?
    ensures SameProgress(Step(s, p, umis), Step(t, p, umis))
  {
    var k := Kept(s.run, umis);
    BodyAppend(s.out, k);
    BodyAppend(t.out, k);
  }

  /**
   * Feeding a file and feeding it with its header lines taken out end alike,
   * except for the header lines written.
   */
  lemma {:induction false} FeedWithoutHeaders(ps: seq<Parsed>, umis: seq<string>)
    requires forall i :: 0 <= i < |ps| && ps[i].Header? ==> IsHeader(ps[i].line)
    ensures SameProgress(Feed(Start, ps, umis), Feed(Start, Alignments(ps), umis))
  {
    if ps != [] {
      var p, x := ps[..|ps| - 1], ps[|ps| - 1];
      assert forall i :: 0 <= i < |p| ==> p[i] == ps[i];
      FeedWithoutHeaders(p, umis);
      var a := Alignments(p);
      var f, g := Feed(Start, p, umis), Feed(Start, a, umis);
      if x.Header? {
        assert Alignments(ps) == a;
        if f.Next? {
          HeaderStep(f.scan, x.line, umis);
        }
      } else {
        assert Alignments(ps) == a + [x];
        assert (a + [x])[..|a|] == a;
        assert Feed(Start, a + [x], umis) == if g.Next? then Step(g.scan, x, umis) else g;
        if f.Next? {
          StepSameBody(f.scan, g.scan, x, umis);
        }
      }
    }
  }

  /** Taking the header lines out of a file takes the headers out of its classification. */
  lemma {:induction false} ParseBody(lines: seq<string>)
    ensures Parse(Body(lines)) == Alignments(Parse(lines))
  {
    if lines != [] {
      ParseBody(lines[..|lines| - 1]);
      ParseBodyLast(lines);
    }
  }

  lemma ParseBodyLast(lines: seq<string>)
    requires lines != []
    requires Parse(Body(lines[..|lines| - 1])) == Alignments(Parse(lines[..|lines| - 1]))
    ensures Parse(Body(lines)) == Alignments(Parse(lines))
  {
    var p, l := lines[..|lines| - 1], lines[|lines| - 1];
    LastSplit(lines);
    ParseSnoc(p, l);
    AlignmentsSnoc(Parse(p), Classify(l));
    BodySnoc(p, l);
    if !IsHeader(l) {
      ParseSnoc(Body(p), l);
    }
  }

  /** A non-empty sequence is its front followed by its last element. */
  lemma LastSplit<T>(s: seq<T>)
    requires s != []
    ensures s == s[..|s| - 1] + [s[|s| - 1]]
  {
  }

  lemma BodySnoc(lines: seq<string>, l: string)
    ensures Body(lines + [l]) == Body(lines) + (if IsHeader(l) then [] else [l])
  {
    assert (lines + [l])[..|lines|] == lines;
  }

  lemma AlignmentsSnoc(ps: seq<Parsed>, x: Parsed)
    ensures Alignments(ps + [x]) == Alignments(ps) + (if x.Header? then [] else [x])
  {
    assert (ps + [x])[..|ps|] == ps;
  }

  /**
   * Header lines never change how the pass ends: with or without them it
   * completes or raises alike, with the same wrong-UMI total or the same
   * exception, and the same non-header lines written.
   */
  lemma PassWithoutHeaders(lines: seq<string>, umis: seq<string>)
    ensures Pass(lines, umis).Completed? <==> Pass(Body(lines), umis).Completed?
    ensures Pass(lines, umis).Completed? && Pass(Body(lines), umis).Completed? ==>
      && Pass(lines, umis).wrongUmis == Pass(Body(lines), umis).wrongUmis
      && Body(Pass(lines, umis).output) == Body(Pass(Body(lines), umis).output)
    ensures Pass(lines, umis).Failed? && Pass(Body(lines), umis).Failed? ==>
      && Pass(lines, umis).error == Pass(Body(lines), umis).error
      && Body(Pass(lines, umis).written) == Body(Pass(Body(lines), umis).written)
  {
    ParseHeaders(lines);
    ParseBody(lines);
    FeedWithoutHeaders(Parse(lines), umis);
    var a, b := Feed(Start, Parse(lines), umis), Feed(Start, Parse(Body(lines)), umis);
    if a.Next? {
      var k := Kept(a.scan.run, umis);
      BodyAppend(a.scan.out, k);
      BodyAppend(b.scan.out, k);
    }
  }

  /**
   * RunsIsolated for a file with header lines anywhere among its
   * alignment lines: the pass completes, its non-header output is each
   * run's first-wins lines, its total the sum of the runs' counts, and its
   * header output the file's header lines.
   */
  lemma RunsIsolatedWithHeaders(lines: seq<string>, rs: seq<seq<Parsed>>, chrs: seq<string>, umis: seq<string>)
    requires Runs(rs, chrs) && rs != [] && Parse(Body(lines)) == Flatten(rs)
    ensures EachGood(rs)
    ensures Pass(lines, umis).Completed?
    ensures Pass(lines, umis).wrongUmis == WrongRuns(rs, umis)
    ensures Body(Pass(lines, umis).output) == KeptRuns(rs, umis)
    ensures Headers(Pass(lines, umis).output) == Headers(lines)
  {
    RunsIsolated(rs, chrs, umis);
    PassWithoutHeaders(lines, umis);
    PassHeaders(lines, umis);
    var body := Body(lines);
    NoHeaders(body);
    PassHeaders(body, umis);
    BodyOfHeaderless(Pass(body, umis).output);
  }

  /** SingleRun for a file with header lines anywhere among one chromosome's alignment lines. */
  lemma SingleRunWithHeaders(lines: seq<string>, c: string, umis: seq<string>)
    requires Parse(Body(lines)) != [] && OnChromosome(Parse(Body(lines)), c)
    ensures AllGood(Parse(Body(lines)))
    ensures Pass(lines, umis).Completed?
    ensures Pass(lines, umis).wrongUmis == Wrong(EntriesOf(Parse(Body(lines))), umis)
    ensures Body(Pass(lines, umis).output) == Kept(EntriesOf(Parse(Body(lines))), umis)
    ensures Headers(Pass(lines, umis).output) == Headers(lines)
  {
    OneRun(Parse(Body(lines)), c, umis);
    RunsIsolatedWithHeaders(lines, [Parse(Body(lines))], [c], umis);
  }

  /** One chromosome's alignment lines form a single run. */
  lemma OneRun(ps: seq<Parsed>, c: string, umis: seq<string>)
    requires ps != [] && OnChromosome(ps, c)
    ensures Runs([ps], [c]) && Flatten([ps]) == ps && EachGood([ps])
    ensures KeptRuns([ps], umis) == Kept(EntriesOf(ps), umis)
    ensures WrongRuns([ps], umis) == Wrong(EntriesOf(ps), umis)
  {
    assert [ps][..0] == [];
    assert Flatten([ps]) == [] + ps;
    assert KeptRuns([ps], umis) == [] + Kept(EntriesOf(ps), umis);
  }
}
