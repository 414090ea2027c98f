/** `find_candidates` in tools/cavefind.py: the aligned runs of one fill byte in
    a window of the image. */
module CaveCandidates {
  import opened Bytes

  datatype Candidate = Candidate(start: int, end: int, size: int, fill: byte)

  /** A run of one byte: where it starts and where it ends. */
  datatype Run = Run(from: nat, to: nat)

  /** `(s + 3) & ~3` */
  function Align(s: nat): (a: nat)
    ensures a % 4 == 0 && s <= a < s + 4
  {
    (s + 3) / 4 * 4
  }

  /** How a scan clips its window to a buffer of `n` bytes. */
  function Clip(x: int, n: nat): (r: nat)
    ensures r <= n
  {
    if x < 0 then 0 else if x > n then n else x
  }

  predicate AllFill(img: seq<byte>, lo: nat, hi: nat, fill: byte) {
    hi <= |img| && forall i :: lo <= i < hi ==> img[i] == fill
  }

  /** `[s, e)` is a whole run of the fill byte within the window. */
  predicate MaximalRun(img: seq<byte>, lo: nat, hi: nat, fill: byte, s: nat, e: nat) {
    && lo <= s < e <= hi <= |img|
    && AllFill(img, s, e, fill)
    && (s == lo || img[s - 1] != fill)
    && (e == hi || img[e] != fill)
  }

  /** The scan `pattern.finditer(img, lo, hi)` for one or more fill bytes. */
  method FindRuns(img: seq<byte>, lo: nat, hi: nat, fill: byte) returns (runs: seq<Run>)
    requires hi <= |img|
    ensures forall k :: 0 <= k < |runs| ==> MaximalRun(img, lo, hi, fill, runs[k].from, runs[k].to)
    ensures forall s: nat, e: nat :: MaximalRun(img, lo, hi, fill, s, e) ==> Run(s, e) in runs
    ensures Ascending(runs)
  {
    runs := [];
    var i := lo;
    while i < hi
      invariant lo <= i && (i <= hi || i == lo)
      invariant i == lo || i >= hi || img[i - 1] != fill || img[i] != fill
      invariant forall k :: 0 <= k < |runs| ==> MaximalRun(img, lo, hi, fill, runs[k].from, runs[k].to) && runs[k].to <= i
      invariant forall s: nat, e: nat :: MaximalRun(img, lo, hi, fill, s, e) && s < i ==> Run(s, e) in runs
      invariant Ascending(runs)
    {
      var first := i;
      while i < hi && img[i] == fill
        invariant first <= i <= hi && AllFill(img, first, i, fill)
      {
        i := i + 1;
      }
      if i > first {
        forall s: nat, e: nat | MaximalRun(img, lo, hi, fill, s, e) && first <= s < i
          ensures s == first && e == i
        {
          RunIsWhole(img, lo, hi, fill, first, i, s, e);
        }
        runs := runs + [Run(first, i)];
      } else {
        i := i + 1;
      }
    }
  }

  predicate Ascending(runs: seq<Run>) {
    forall j, k :: 0 <= j < k < |runs| ==> runs[j].to <= runs[k].from && runs[j].to < runs[k].to
  }

  /** A maximal run that starts inside a stretch of fill which is not preceded by
      fill, and ends where fill ends, is that stretch. */
  lemma RunIsWhole(img: seq<byte>, lo: nat, hi: nat, fill: byte, first: nat, last: nat, s: nat, e: nat)
    requires lo <= first < last <= hi <= |img| && AllFill(img, first, last, fill)
    requires last == hi || img[last] != fill
    requires MaximalRun(img, lo, hi, fill, s, e) && first <= s < last
    ensures s == first && e == last
  {
  }

  // ---- Keeping and sorting ------------------------------------------------

  function CandidateOf(load: int, run: Run, fill: byte): Candidate {
    Candidate(load + Align(run.from), load + run.to, run.to - Align(run.from), fill)
  }

  /** The candidates of the runs that are long enough once aligned, in order. */
  function Kept(load: int, runs: seq<Run>, fill: byte, minSize: int): seq<Candidate> {
    if runs == [] then []
    else
      var c := CandidateOf(load, runs[|runs| - 1], fill);
      Kept(load, runs[..|runs| - 1], fill, minSize) + if c.size >= minSize then [c] else []
  }

  lemma {:induction false} KeptAre(load: int, runs: seq<Run>, fill: byte, minSize: int, c: Candidate)
    ensures c in Kept(load, runs, fill, minSize) <==>
            exists k :: 0 <= k < |runs| && CandidateOf(load, runs[k], fill) == c && c.size >= minSize
  {
    hide CandidateOf;
    if runs == [] {
    } else {
      var last := |runs| - 1;
      var init := runs[..last];
      KeptAre(load, init, fill, minSize, c);
      if k :| 0 <= k < |init| && CandidateOf(load, init[k], fill) == c && c.size >= minSize {
        assert CandidateOf(load, runs[k], fill) == c;
      }
      if k :| 0 <= k < |runs| && CandidateOf(load, runs[k], fill) == c && c.size >= minSize && k != last {
        assert CandidateOf(load, init[k], fill) == c;
      }
    }
  }

  predicate NoRepeats(s: seq<Candidate>) {
    forall i, j :: 0 <= i < j < |s| ==> s[i] != s[j]
  }

  lemma {:induction false} KeptOnce(load: int, runs: seq<Run>, fill: byte, minSize: int)
    requires Ascending(runs)
    ensures NoRepeats(Kept(load, runs, fill, minSize))
  {
    if runs == [] {
    } else {
      var last := |runs| - 1;
      var init := runs[..last];
      KeptOnce(load, init, fill, minSize);
      var c := CandidateOf(load, runs[last], fill);
      KeptAre(load, init, fill, minSize, c);
    }
  }

  predicate Sorted(s: seq<Candidate>) {
    forall i, j :: 0 <= i < j < |s| ==> s[i].start <= s[j].start
  }

  /** Insertion after every candidate that does not start later. */
  function Insert(s: seq<Candidate>, c: Candidate): (r: seq<Candidate>)
    requires Sorted(s)
    ensures Sorted(r) && multiset(r) == multiset(s) + multiset{c}
  {
    if s == [] then [c]
    else
      var init, last := s[..|s| - 1], s[|s| - 1];
      assert s == init + [last];
      if last.start <= c.start then s + [c]
      else
        var r := Insert(init, c);
        InsertedBelow(r, init, c, last);
        r + [last]
  }

  lemma InsertedBelow(r: seq<Candidate>, init: seq<Candidate>, c: Candidate, last: Candidate)
    requires multiset(r) == multiset(init) + multiset{c}
    requires c.start <= last.start && forall i :: 0 <= i < |init| ==> init[i].start <= last.start
    ensures forall i :: 0 <= i < |r| ==> r[i].start <= last.start
  {
    forall i | 0 <= i < |r|
      ensures r[i].start <= last.start
    {
      assert r[i] in multiset(r);
      assert r[i] == c || r[i] in init;
    }
  }

  /** `out.sort(key=lambda c: c['start'])` */
  function SortByStart(s: seq<Candidate>): (r: seq<Candidate>)
    ensures Sorted(r) && multiset(r) == multiset(s)
  {
    if s == [] then []
    else
      assert s == s[..|s| - 1] + [s[|s| - 1]];
      Insert(SortByStart(s[..|s| - 1]), s[|s| - 1])
  }

  lemma SortKeepsMembers(s: seq<Candidate>)
    ensures forall c :: c in SortByStart(s) <==> c in s
    ensures NoRepeats(s) ==> NoRepeats(SortByStart(s))
  {
    var r := SortByStart(s);
    hide SortByStart;
    forall c
      ensures c in r <==> c in s
    {
      assert c in multiset(r) <==> c in multiset(s);
    }
    if NoRepeats(s) {
      forall c
        ensures multiset(r)[c] <= 1
      {
        OnceEach(s, c);
      }
      forall i, j | 0 <= i < j < |r|
        ensures r[i] != r[j]
      {
        CountsTwo(r, i, j);
      }
    }
  }

  lemma CountsTwo(s: seq<Candidate>, i: nat, j: nat)
    requires i < j < |s|
    ensures s[i] == s[j] ==> multiset(s)[s[i]] >= 2
  {
    assert s == s[..j] + s[j..];
    assert s[..j][i] == s[i] && s[j..][0] == s[j];
  }

  lemma {:induction false} OnceEach(s: seq<Candidate>, c: Candidate)
    requires NoRepeats(s)
    ensures multiset(s)[c] <= 1
  {
    if s == [] {
    } else {
      var init := s[..|s| - 1];
      assert s == init + [s[|s| - 1]];
      OnceEach(init, c);
    }
  }

  // ---- The search ---------------------------------------------------------

  /** A candidate: a whole run of 0x00 or 0xFF in the window, its start rounded
      up to four bytes, and no shorter than the minimum. */
  ghost predicate IsCandidate(img: seq<byte>, load: int, lo: nat, hi: nat, minSize: int, c: Candidate) {
    && (c.fill == 0x00 || c.fill == 0xFF)
    && c.size >= minSize
    && exists s, e :: MaximalRun(img, lo, hi, c.fill, s, e) && c == CandidateOf(load, Run(s, e), c.fill)
  }

  lemma RunsGiveCandidates(img: seq<byte>, load: int, lo: nat, hi: nat, minSize: int, runs: seq<Run>, fill: byte, c: Candidate)
    requires fill == 0x00 || fill == 0xFF
    requires forall k :: 0 <= k < |runs| ==> MaximalRun(img, lo, hi, fill, runs[k].from, runs[k].to)
    requires forall s: nat, e: nat :: MaximalRun(img, lo, hi, fill, s, e) ==> Run(s, e) in runs
    ensures c in Kept(load, runs, fill, minSize) <==> IsCandidate(img, load, lo, hi, minSize, c) && c.fill == fill
  {
    hide MaximalRun, Kept, Align;
    KeptAre(load, runs, fill, minSize, c);
    if c in Kept(load, runs, fill, minSize) {
      var k :| 0 <= k < |runs| && CandidateOf(load, runs[k], fill) == c && c.size >= minSize;
      assert MaximalRun(img, lo, hi, fill, runs[k].from, runs[k].to);
      assert runs[k] == Run(runs[k].from, runs[k].to);
    }
    if IsCandidate(img, load, lo, hi, minSize, c) && c.fill == fill {
      var s, e :| MaximalRun(img, lo, hi, c.fill, s, e) && c == CandidateOf(load, Run(s, e), c.fill);
      var k :| 0 <= k < |runs| && runs[k] == Run(s, e);
    }
  }

  /** `find_candidates`: exactly the candidates of the window, each once, sorted. */
  method FindCandidates(img: seq<byte>, load: int, surviveStart: int, surviveEnd: int, minSize: int)
    returns (out: seq<Candidate>)
    ensures var lo, hi := Clip(surviveStart - load, |img|), Clip(surviveEnd - load, |img|);
            forall c :: c in out <==> IsCandidate(img, load, lo, hi, minSize, c)
    ensures Sorted(out) && NoRepeats(out)
  {
    hide IsCandidate, MaximalRun, SortByStart, CandidateOf, Ascending;
    var lo, hi := Clip(surviveStart - load, |img|), Clip(surviveEnd - load, |img|);
    var zeros := FindRuns(img, lo, hi, 0x00);
    out := KeepRuns([], load, zeros, 0x00, minSize);
    var ones := FindRuns(img, lo, hi, 0xFF);
    out := KeepRuns(out, load, ones, 0xFF, minSize);
    forall c
      ensures c in Kept(load, zeros, 0x00, minSize) <==> IsCandidate(img, load, lo, hi, minSize, c) && c.fill == 0x00
      ensures c in Kept(load, ones, 0xFF, minSize) <==> IsCandidate(img, load, lo, hi, minSize, c) && c.fill == 0xFF
    {
      RunsGiveCandidates(img, load, lo, hi, minSize, zeros, 0x00, c);
      RunsGiveCandidates(img, load, lo, hi, minSize, ones, 0xFF, c);
    }
    CandidateFill(img, load, lo, hi, minSize);
    KeptOnce(load, zeros, 0x00, minSize);
    KeptOnce(load, ones, 0xFF, minSize);
    hide Kept;
    SortKeepsMembers(out);
    out := SortByStart(out);
  }

  lemma CandidateFill(img: seq<byte>, load: int, lo: nat, hi: nat, minSize: int)
    ensures forall c :: IsCandidate(img, load, lo, hi, minSize, c) ==> c.fill == 0x00 || c.fill == 0xFF
  {
  }

  /** The loop that aligns and filters one pattern's runs. */
  method KeepRuns(before: seq<Candidate>, load: int, runs: seq<Run>, fill: byte, minSize: int)
    returns (out: seq<Candidate>)
    ensures out == before + Kept(load, runs, fill, minSize)
  {
    out := before;
    for k := 0 to |runs|
      invariant out == before + Kept(load, runs[..k], fill, minSize)
    {
      assert runs[..k + 1][..k] == runs[..k];
      var Run(s, e) := runs[k];
      var aligned := Align(s);
      if e - aligned >= minSize {
        out := out + [Candidate(load + aligned, load + e, e - aligned, fill)];
      }
    }
    assert runs[..|runs|] == runs;
  }

  // ---- What the candidates are --------------------------------------------

  /** Soundness: a candidate is a stretch of its fill byte inside the window, as
      long as promised, aligned relative to the load address. */
  lemma CandidateIsFill(img: seq<byte>, load: int, lo: nat, hi: nat, minSize: nat, c: Candidate)
    requires hi <= |img| && IsCandidate(img, load, lo, hi, minSize, c)
    ensures var a, b := c.start - load, c.end - load;
            lo <= a <= b <= hi && AllFill(img, a, b, c.fill) && minSize <= c.size == b - a &&
            (b == hi || img[b] != c.fill)
    ensures (c.start - load) % 4 == 0 && (c.start % 4 == 0 <==> load % 4 == 0)
  {
    var s, e :| MaximalRun(img, lo, hi, c.fill, s, e) && c == CandidateOf(load, Run(s, e), c.fill);
    AlignedFrom(load, s);
    hide Align;
  }

  lemma AlignedFrom(load: int, s: nat)
    ensures s <= Align(s) && Align(s) % 4 == 0 && ((load + Align(s)) % 4 == 0 <==> load % 4 == 0)
  {
  }

  /** Every stretch of fill lies in a maximal run. */
  lemma {:induction false} Extends(img: seq<byte>, lo: nat, hi: nat, fill: byte, x: nat, y: nat) returns (s: nat, e: nat)
    requires lo <= x < y <= hi <= |img| && AllFill(img, x, y, fill)
    ensures MaximalRun(img, lo, hi, fill, s, e) && s <= x && y <= e
    decreases (x - lo) + (hi - y)
  {
    if x > lo && img[x - 1] == fill {
      s, e := Extends(img, lo, hi, fill, x - 1, y);
    } else if y < hi && img[y] == fill {
      s, e := Extends(img, lo, hi, fill, x, y + 1);
    } else {
      s, e := x, y;
    }
  }

  /** Completeness: every aligned stretch of fill in the window that is as long
      as the minimum lies inside a candidate of the same fill. */
  lemma FillIsInCandidate(img: seq<byte>, load: int, lo: nat, hi: nat, minSize: nat, fill: byte, x: nat, y: nat)
    returns (c: Candidate)
    requires lo <= x < y <= hi <= |img| && AllFill(img, x, y, fill) && (fill == 0x00 || fill == 0xFF)
    requires x % 4 == 0 && y - x >= minSize
    ensures IsCandidate(img, load, lo, hi, minSize, c) && c.fill == fill && c.start <= load + x && load + y <= c.end
  {
    var s, e := Extends(img, lo, hi, fill, x, y);
    c := CandidateOf(load, Run(s, e), fill);
    assert Align(s) <= x;
  }

  /** Two candidates never share an address, so their order by start is strict. */
  lemma CandidatesApart(img: seq<byte>, load: int, lo: nat, hi: nat, minSize: int, c: Candidate, d: Candidate)
    requires minSize >= 1 && hi <= |img| && c != d
    requires IsCandidate(img, load, lo, hi, minSize, c) && IsCandidate(img, load, lo, hi, minSize, d)
    ensures c.end <= d.start || d.end <= c.start
  {
    var s, e :| MaximalRun(img, lo, hi, c.fill, s, e) && c == CandidateOf(load, Run(s, e), c.fill);
    var s2, e2 :| MaximalRun(img, lo, hi, d.fill, s2, e2) && d == CandidateOf(load, Run(s2, e2), d.fill);
    hide Align;
    RunsApart(img, lo, hi, c.fill, s, e, d.fill, s2, e2);
  }

  lemma RunsApart(img: seq<byte>, lo: nat, hi: nat, f: byte, s: nat, e: nat, f2: byte, s2: nat, e2: nat)
    requires MaximalRun(img, lo, hi, f, s, e) && MaximalRun(img, lo, hi, f2, s2, e2)
    ensures e <= s2 || e2 <= s || (f, s, e) == (f2, s2, e2)
  {
    if s2 < e && s < e2 {
      var m := if s < s2 then s2 else s;
      assert img[m] == f == f2;
      if s <= s2 {
        RunIsWhole(img, lo, hi, f, s, e, s2, e2);
      } else {
        RunIsWhole(img, lo, hi, f, s2, e2, s, e);
      }
    }
  }
}
