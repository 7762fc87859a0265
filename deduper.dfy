/**
 * The script's main loop (allen_deduper.py:130-206) with file I/O taken
 * out: the SAM file is a sequence of lines, the UMI file an allow-list, and
 * what the script writes to the output file is returned, together with the
 * wrong-UMI total it prints.
 */
module Deduper {
  import opened Wrappers
  import opened SamRecord
  import opened Cigar
  import opened Groups

  /** `line.startswith("@")`. */
  predicate IsHeader(line: string) {
    |line| > 0 && line[0] == '@'
  }

  /** Lines 153, 171-175, 193: the key is the UMI, the adjusted position and the strand. */
  function KeyOf(info: Info): Key {
    Key(info.umi, info.position, info.strand)
  }

  /**
   * What the loop makes of one line before it looks at the chromosome the
   * pass is in: a header, a line `extract_SAM_info` raised on, or an
   * alignment with its chromosome and, from `pos_adj`, either the entry the
   * line files under its key or the exception it raises.
   */
  datatype Parsed =
    | Header(line: string)
    | Unreadable(error: Error)
    | Alignment(chrom: string, adjusted: Result<Entry>)

  /** `pos_adj`, then the key and the line the dictionary receives. */
  function Adjust(line: string, info: Info): Result<Entry> {
    var adj := Adjusted(info);
    if adj.Err? then Err(adj.error) else Ok(Entry(KeyOf(adj.value), line))
  }

  /**
   * Lines 139-168: a line starting with `@` is a header; any other line is
   * unreadable exactly when `extract_SAM_info` raises, and otherwise is an
   * alignment on its RNAME, filed (when `pos_adj` succeeds) under its UMI,
   * adjusted position and strand.
   */
  function Classify(line: string): (p: Parsed)
    ensures p.Header? <==> IsHeader(line)
    ensures p.Header? ==> p.line == line
  {
    if IsHeader(line) then Header(line)
    else
      var info := ExtractSamInfo(line);
      if info.Err? then Unreadable(info.error) else Alignment(info.value.chromosome, Adjust(line, info.value))
  }

  function Parse(lines: seq<string>): (ps: seq<Parsed>)
    ensures |ps| == |lines|
  {
    seq(|lines|, i requires 0 <= i < |lines| => Classify(lines[i]))
  }

  /**
   * The state of the pass between two lines: what has been written, the
   * entries of the current chromosome run in arrival order, the current
   * chromosome (None before the first alignment line), the running total.
   */
  datatype Scan = Scan(out: seq<string>, run: seq<Entry>, chr: Option<string>, total: nat)

  datatype Progress = Next(scan: Scan) | Stop(written: seq<string>, error: Error)

  /**
   * How the pass ends: with every output line and the wrong-UMI total, or
   * with an exception, leaving in the output file what was written before it.
   */
  datatype Outcome = Completed(output: seq<string>, wrongUmis: nat) | Failed(written: seq<string>, error: Error)

  const Start: Scan := Scan([], [], None, 0)

  /**
   * One input line. A header is written at once. An alignment line of the
   * current chromosome joins the run. One of a new chromosome first writes
   * the finished run's first-wins lines, and only then is its own position
   * adjusted, so a failure there leaves that run in the output.
   */
  function Step(s: Scan, p: Parsed, umis: seq<string>): (r: Progress)
    ensures r.Stop? <==> p.Unreadable? || (p.Alignment? && p.adjusted.Err?)
  {
    match p
    case Header(line) => Next(s.(out := s.out + [line]))
    case Unreadable(e) => Stop(s.out, e)
    case Alignment(chrom, adj) =>
      if s.chr == None || s.chr == Some(chrom) then
        if adj.Err? then Stop(s.out, adj.error)
        else Next(Scan(s.out, s.run + [adj.value], Some(chrom), s.total))
      else
        var out := s.out + Kept(s.run, umis);
        var total := s.total + Wrong(s.run, umis);
        if adj.Err? then Stop(out, adj.error)
        else Next(Scan(out, [adj.value], Some(chrom), total))
  }

  /**
   * What one line does to the pass: the output is only ever appended to and
   * the total only grows; a header changes nothing else; a good alignment
   * line ends up last in the run of its chromosome; and on the current
   * chromosome an alignment line writes nothing.
   */
  lemma StepMoves(s: Scan, p: Parsed, umis: seq<string>)
    ensures var r := Step(s, p, umis);
      && (r.Next? ==> s.out <= r.scan.out && s.total <= r.scan.total)
      && (r.Stop? ==> s.out <= r.written)
    ensures var r := Step(s, p, umis);
      r.Next? && p.Header? ==> r.scan.run == s.run && r.scan.chr == s.chr && r.scan.total == s.total
    ensures var r := Step(s, p, umis);
      r.Next? && p.Alignment? ==>
        r.scan.chr == Some(p.chrom) && r.scan.run != [] && r.scan.run[|r.scan.run| - 1] == p.adjusted.value
    ensures var r := Step(s, p, umis);
      p.Alignment? && (s.chr == None || s.chr == Some(p.chrom)) ==>
        && (r.Next? ==> r.scan.out == s.out && r.scan.run == s.run + [p.adjusted.value])
        && (r.Stop? ==> r.written == s.out)
  {
  }

  /** The lines fed one after another, stopping at the first exception. */
  function Feed(s: Scan, ps: seq<Parsed>, umis: seq<string>): Progress {
    if ps == [] then Next(s)
    else match Feed(s, ps[..|ps| - 1], umis)
      case Next(t) => Step(t, ps[|ps| - 1], umis)
      case Stop(w, e) => Stop(w, e)
  }

  /** Lines 196-206: the last run is filtered and written at end of input. */
  function Finish(s: Scan, umis: seq<string>): (o: Outcome)
    ensures o.Completed? && s.out <= o.output && s.total <= o.wrongUmis
    ensures (|o.output| - |s.out|) + (o.wrongUmis - s.total) == |KeysOf(s.run)|
  {
    KeptPlusWrong(s.run, umis);
    Completed(s.out + Kept(s.run, umis), s.total + Wrong(s.run, umis))
  }

  /** Line `p` raises exception `e`. */
  predicate Raises(p: Parsed, e: Error) {
    p == Unreadable(e) || (p.Alignment? && p.adjusted == Err(e))
  }

  /** A stopped feed carries the exception of one of its lines. */
  lemma {:induction false} FeedError(s: Scan, ps: seq<Parsed>, umis: seq<string>)
    ensures Feed(s, ps, umis).Stop? ==> exists i :: 0 <= i < |ps| && Raises(ps[i], Feed(s, ps, umis).error)
  {
    if ps != [] {
      var p := ps[..|ps| - 1];
      FeedError(s, p, umis);
      if Feed(s, p, umis).Stop? {
        var i :| 0 <= i < |p| && Raises(p[i], Feed(s, p, umis).error);
        assert ps[i] == p[i];
      } else if Feed(s, ps, umis).Stop? {
        assert Raises(ps[|ps| - 1], Feed(s, ps, umis).error);
      }
    }
  }

  /** The pass over lines already classified: it fails only with an exception one of them raises. */
  function Run(ps: seq<Parsed>, umis: seq<string>): (o: Outcome)
    ensures o.Failed? ==> exists i :: 0 <= i < |ps| && Raises(ps[i], o.error)
  {
    FeedError(Start, ps, umis);
    match Feed(Start, ps, umis)
    case Next(s) => Finish(s, umis)
    case Stop(w, e) => Failed(w, e)
  }

  /** Only `extract_SAM_info` and `pos_adj` raise, with IndexError or ValueError. */
  lemma ClassifyErrors(line: string, e: Error)
    requires Raises(Classify(line), e)
    ensures e == IndexError || e == ValueError
  {
  }

  lemma ParseErrors(lines: seq<string>, e: Error)
    requires exists i :: 0 <= i < |lines| && Raises(Parse(lines)[i], e)
    ensures e == IndexError || e == ValueError
  {
    var i :| 0 <= i < |lines| && Raises(Parse(lines)[i], e);
    ClassifyErrors(lines[i], e);
  }

  /** The whole pass over the SAM lines: the loop never raises KeyError. */
  function Pass(lines: seq<string>, umis: seq<string>): (o: Outcome)
    ensures o.Failed? ==> o.error == IndexError || o.error == ValueError
  {
    var o := Run(Parse(lines), umis);
    if o.Failed? then ParseErrors(lines, o.error); o else o
  }

  /** Once the pass has stopped, later lines change nothing. */
  lemma {:induction false} FeedStopped(s: Scan, ps: seq<Parsed>, n: nat, umis: seq<string>)
    requires n <= |ps| && Feed(s, ps[..n], umis).Stop?
    ensures Feed(s, ps, umis) == Feed(s, ps[..n], umis)
    decreases |ps| - n
  {
    if n < |ps| {
      assert ps[..n + 1][..n] == ps[..n];
      FeedStopped(s, ps, n + 1, umis);
    } else {
      assert ps[..n] == ps;
    }
  }

  /** Classifying a prefix is a prefix of classifying the whole. */
  lemma ParsePrefix(lines: seq<string>, n: nat)
    requires n <= |lines|
    ensures Parse(lines[..n]) == Parse(lines)[..n]
  {
  }

  /** Classifying one more line appends its class. */
  lemma ParseSnoc(lines: seq<string>, line: string)
    ensures Parse(lines + [line]) == Parse(lines) + [Classify(line)]
  {
    assert forall i :: 0 <= i < |lines| ==> (lines + [line])[i] == lines[i];
  }

  /** Feeding one more line is one more step. */
  lemma FeedNext(lines: seq<string>, i: nat, s: Scan, umis: seq<string>)
    requires i < |lines| && Feed(Start, Parse(lines[..i]), umis) == Next(s)
    ensures Feed(Start, Parse(lines[..i + 1]), umis) == Step(s, Classify(lines[i]), umis)
  {
    var ps := Parse(lines[..i + 1]);
    assert ps[..i] == Parse(lines[..i]);
  }

  /** A pass that reads every line without raising ends by flushing the last run. */
  lemma PassFinished(lines: seq<string>, s: Scan, umis: seq<string>)
    requires Feed(Start, Parse(lines), umis) == Next(s)
    ensures Pass(lines, umis) == Completed(s.out + Kept(s.run, umis), s.total + Wrong(s.run, umis))
  {
  }

  /** A pass that raises on line i ends there, with what was written before. */
  lemma PassStopped(lines: seq<string>, i: nat, w: seq<string>, e: Error, umis: seq<string>)
    requires i < |lines| && Feed(Start, Parse(lines[..i + 1]), umis) == Stop(w, e)
    ensures Pass(lines, umis) == Failed(w, e)
  {
    ParsePrefix(lines, i + 1);
    FeedStopped(Start, Parse(lines), i + 1, umis);
  }

  /**
   * How the loop's variables stand for a scan state: `chr_dict` holds the
   * entries received for the current run, which are the run itself or, for
   * the first chromosome, the run with its first line received twice.
   */
  ghost predicate Tracks(s: Scan, out: seq<string>, chrDict: Group, firstchr: bool,
                         currentChr: Option<string>, total: nat, recv: seq<Entry>)
  {
    && out == s.out && total == s.total && currentChr == s.chr
    && (firstchr <==> s.chr == None)
    && (s.chr == None ==> s.run == [] && recv == [])
    && chrDict == GroupOf(recv)
    && Received(recv, s.run)
  }

  /** The entries put in the dictionary: the run, or the run with its first entry twice. */
  ghost predicate Received(recv: seq<Entry>, run: seq<Entry>) {
    recv == run || (run != [] && recv == [run[0]] + run)
  }

  /** Appending the same entry to both keeps them related. */
  lemma ReceivedSnoc(recv: seq<Entry>, run: seq<Entry>, e: Entry)
    requires Received(recv, run)
    ensures Received(recv + [e], run + [e])
  {
    if recv != run {
      assert (run + [e])[0] == run[0];
      assert recv + [e] == [run[0]] + (run + [e]);
    }
  }

  /** The dictionary after one more entry. */
  lemma GroupOfSnoc(es: seq<Entry>, e: Entry)
    ensures GroupOf(es + [e]) == Insert(GroupOf(es), e)
  {
    assert (es + [e])[..|es|] == es;
  }

  /**
   * Lines 171-175 on a line of the current chromosome: the entry is
   * appended under its key.
   */
  method Join(line: string, info: Info, chrDict: Group, ghost run: seq<Entry>, ghost recv: seq<Entry>)
      returns (adj: Result<Info>, chrDict': Group, ghost recv': seq<Entry>)
    requires chrDict == GroupOf(recv)
    requires Received(recv, run)
             || (run == [] && Adjust(line, info).Ok? && recv == [Adjust(line, info).value])
    ensures adj == Adjusted(info)
    ensures adj.Ok? ==> chrDict' == GroupOf(recv') && Received(recv', run + [Adjust(line, info).value])
  {
    adj := PosAdj(info);
    if adj.Err? {
      return adj, chrDict, recv;
    }
    var e := Entry(Key(info.umi, adj.value.position, adj.value.strand), line);
    chrDict' := Insert(chrDict, e);
    recv' := recv + [e];
    GroupOfSnoc(recv, e);
    if Received(recv, run) {
      ReceivedSnoc(recv, run, e);
    } else {
      assert e == Entry(KeyOf(adj.value), line);
      assert run + [e] == [e] && recv == [e];
    }
  }

  /**
   * `filter_pcr_dupes` on the dictionary built from a run (lines 181-183,
   * 197-199): the run's first-wins lines and its wrong-UMI count, even when
   * the first line of the first run was received twice.
   */
  method FilterRun(chrDict: Group, umis: seq<string>, ghost run: seq<Entry>, ghost recv: seq<Entry>)
      returns (deduped: seq<string>, wrongumis: nat)
    requires chrDict == GroupOf(recv)
    requires Received(recv, run)
    ensures deduped == Kept(run, umis) && wrongumis == Wrong(run, umis)
  {
    deduped, wrongumis := FilterPcrDupes(chrDict, umis);
    GroupOfFilter(recv, umis);
    if recv != run {
      DoubledHead(run, umis);
    }
  }

  /**
   * A fresh dictionary holding one line under its key (lines 153-154 and
   * 192-194).
   */
  method StartRun(line: string, info: Info) returns (adj: Result<Info>, chrDict': Group, ghost recv': seq<Entry>)
    ensures adj == Adjusted(info)
    ensures adj.Ok? ==> recv' == [Adjust(line, info).value] && chrDict' == GroupOf(recv')
  {
    adj := PosAdj(info);
    if adj.Err? {
      return adj, Empty, [];
    }
    var key := Key(info.umi, adj.value.position, adj.value.strand);
    chrDict' := Put(Empty, key, [line]);
    recv' := [Entry(key, line)];
    assert chrDict' == GroupOf(recv');
  }

  /**
   * The first alignment line (lines 144-175): it opens the dictionary and
   * then, `firstchr` being cleared, is appended to it a second time.
   */
  method ReadFirst(line: string, info: Info, umis: seq<string>, ghost pre: Scan)
      returns (raised: Option<Error>, chrDict': Group, ghost recv': seq<Entry>)
    requires pre.chr == None && pre.run == []
    ensures match Step(pre, Alignment(info.chromosome, Adjust(line, info)), umis)
      case Stop(w, e) => raised == Some(e) && w == pre.out
      case Next(t) => raised == None && Tracks(t, pre.out, chrDict', false, Some(info.chromosome), pre.total, recv')
  {
    var adj;
    adj, chrDict', recv' := StartRun(line, info);
    if adj.Err? {
      return Some(adj.error), chrDict', recv';
    }
    adj, chrDict', recv' := Join(line, info, chrDict', pre.run, recv');
    raised := None;
  }

  /** An alignment line of the current chromosome (lines 164-175). */
  method ReadSame(line: string, info: Info, umis: seq<string>, chrDict: Group, ghost pre: Scan, ghost recv: seq<Entry>)
      returns (raised: Option<Error>, chrDict': Group, ghost recv': seq<Entry>)
    requires pre.chr == Some(info.chromosome)
    requires Tracks(pre, pre.out, chrDict, false, pre.chr, pre.total, recv)
    ensures match Step(pre, Alignment(info.chromosome, Adjust(line, info)), umis)
      case Stop(w, e) => raised == Some(e) && w == pre.out
      case Next(t) => raised == None && Tracks(t, pre.out, chrDict', false, pre.chr, pre.total, recv')
  {
    var adj;
    adj, chrDict', recv' := Join(line, info, chrDict, pre.run, recv);
    raised := if adj.Err? then Some(adj.error) else None;
  }

  /**
   * An alignment line of a new chromosome (lines 177-194): the finished run
   * is filtered and written before the new line's position is adjusted.
   */
  method ReadNew(line: string, info: Info, umis: seq<string>, out: seq<string>, chrDict: Group, total: nat,
                 ghost pre: Scan, ghost recv: seq<Entry>)
      returns (raised: Option<Error>, written: seq<string>, chrDict': Group, total': nat, ghost recv': seq<Entry>)
    requires pre.chr.Some? && pre.chr != Some(info.chromosome)
    requires Tracks(pre, out, chrDict, false, pre.chr, total, recv)
    ensures match Step(pre, Alignment(info.chromosome, Adjust(line, info)), umis)
      case Stop(w, e) => raised == Some(e) && w == written
      case Next(t) => raised == None && Tracks(t, written, chrDict', false, Some(info.chromosome), total', recv')
  {
    var deduped, wrongumis := FilterRun(chrDict, umis, pre.run, recv);
    total' := total + wrongumis;
    written := out + deduped;
    var adj;
    adj, chrDict', recv' := StartRun(line, info);
    raised := if adj.Err? then Some(adj.error) else None;
    ghost var r := Step(pre, Alignment(info.chromosome, Adjust(line, info)), umis);
    if adj.Err? {
      assert r == Stop(written, adj.error);
    } else {
      assert r == Next(Scan(written, recv', Some(info.chromosome), total'));
    }
  }

  /**
   * The loop body (lines 137-194) on one line: the loop's variables move as
   * `Step` moves the scan state, and an exception ends the pass with what
   * `Step` says was written.
   */
  method ReadLine(line: string, umis: seq<string>, out: seq<string>, chrDict: Group, firstchr: bool,
                  currentChr: Option<string>, wrongumisTotal: nat, ghost pre: Scan, ghost recv: seq<Entry>)
      returns (raised: Option<Error>, out': seq<string>, chrDict': Group, firstchr': bool,
               currentChr': Option<string>, wrongumisTotal': nat, ghost recv': seq<Entry>, ghost next: Scan)
    requires Tracks(pre, out, chrDict, firstchr, currentChr, wrongumisTotal, recv)
    ensures Step(pre, Classify(line), umis) == (if raised.Some? then Stop(out', raised.value) else Next(next))
    ensures raised == None ==> Tracks(next, out', chrDict', firstchr', currentChr', wrongumisTotal', recv')
  {
    out', chrDict', firstchr', currentChr', wrongumisTotal', recv', next := out, chrDict, firstchr, currentChr, wrongumisTotal, recv, pre;
    if IsHeader(line) {
      // lines 139-140
      out' := out + [line];
      return None, out', chrDict', firstchr', currentChr', wrongumisTotal', recv', pre.(out := out');
    }
    var lineinfo := ExtractSamInfo(line);
    if lineinfo.Err? {
      return Some(lineinfo.error), out', chrDict', firstchr', currentChr', wrongumisTotal', recv', next;
    }
    var info := lineinfo.value;
    if firstchr {
      raised, chrDict', recv' := ReadFirst(line, info, umis, pre);
      firstchr', currentChr' := false, Some(info.chromosome);
    } else if currentChr == Some(info.chromosome) {
      raised, chrDict', recv' := ReadSame(line, info, umis, chrDict, pre, recv);
    } else {
      raised, out', chrDict', wrongumisTotal', recv' := ReadNew(line, info, umis, out, chrDict, wrongumisTotal, pre, recv);
      currentChr' := Some(info.chromosome);
    }
    if raised == None {
      next := Step(pre, Classify(line), umis).scan;
    }
  }

  /**
   * The script's loop. `chr_dict`, `firstchr`, `current_chr` and
   * `wrongumis_total` are the loop's variables; `out` is what has been
   * written to the output file.
   */
  method Deduplicate(lines: seq<string>, umis: seq<string>) returns (result: Outcome)
    ensures result == Pass(lines, umis)
  {
    var out: seq<string> := [];
    var chrDict := Empty;
    var firstchr := true;
    var currentChr: Option<string> := None;
    var wrongumisTotal: nat := 0;
    ghost var s := Start;
    ghost var recv: seq<Entry> := [];
    for i := 0 to |lines|
      invariant Feed(Start, Parse(lines[..i]), umis) == Next(s)
      invariant Tracks(s, out, chrDict, firstchr, currentChr, wrongumisTotal, recv)
    {
      FeedNext(lines, i, s, umis);
      var raised;
      ghost var next;
      raised, out, chrDict, firstchr, currentChr, wrongumisTotal, recv, next :=
        ReadLine(lines[i], umis, out, chrDict, firstchr, currentChr, wrongumisTotal, s, recv);
      if raised.Some? {
        PassStopped(lines, i, out, raised.value, umis);
        return Failed(out, raised.value);
      }
      s := next;
    }
    assert lines[..|lines|] == lines;
    PassFinished(lines, s, umis);
    // lines 196-206: the last run is filtered after the loop
    var deduped, wrongumis := FilterRun(chrDict, umis, s.run, recv);
    return Completed(out + deduped, wrongumisTotal + wrongumis);
  }
}
