/** `apply_exclusions` in tools/cavefind.py: whether a candidate survives what is
    known to be referenced or to be code. */
module CaveExclusions {
  import opened Bytes
  import RangeRegex

  const LOOKBACK := 64

  /** A half-open interval of addresses. */
  datatype Interval = Interval(lo: int, hi: int)

  /** A cross-reference dump: its function ranges, in the order the database
      returns equally tight ones, and every referenced address. */
  datatype Dump = Dump(functions: seq<Interval>, refs: seq<int>)

  predicate Covers(f: Interval, a: int) {
    f.lo <= a < f.hi
  }

  /** `overlap` */
  predicate Overlap(d: Dump, lo: int, hi: int) {
    exists k :: 0 <= k < |d.functions| && d.functions[k].lo < hi && lo < d.functions[k].hi
  }

  /** `covering_range`: the tightest function range around an address. */
  function CoveringRange(functions: seq<Interval>, a: int): (r: Option<Interval>)
    ensures r.None? <==> forall k :: 0 <= k < |functions| ==> !Covers(functions[k], a)
    ensures r.Some? ==>
              r.value in functions && Covers(r.value, a) &&
              forall k :: 0 <= k < |functions| && Covers(functions[k], a) ==>
                r.value.hi - r.value.lo <= functions[k].hi - functions[k].lo
  {
    if functions == [] then None
    else
      var init, last := functions[..|functions| - 1], functions[|functions| - 1];
      var best := CoveringRange(init, a);
      assert forall k :: 0 <= k < |functions| ==> functions[k] == if k < |init| then init[k] else last;
      assert forall k :: 0 <= k < |init| ==> init[k] == functions[k];
      if Covers(last, a) && (best.None? || last.hi - last.lo < best.value.hi - best.value.lo) then Some(last) else best
  }

  /** The addresses something is known to reference around a candidate. */
  ghost predicate IsHit(img: seq<byte>, dump: Option<Dump>, deep: set<int>, start: int, end: int, a: int) {
    || (start - LOOKBACK <= a < end && exists i :: 0 <= i <= |img| - 4 && Word(img, i) == a)
    || a in deep
    || (dump.Some? && start - LOOKBACK <= a < end && a in dump.value.refs)
  }

  /** Some function range holds the address. */
  predicate Bounded(dump: Option<Dump>, a: int) {
    dump.Some? && exists k :: 0 <= k < |dump.value.functions| && Covers(dump.value.functions[k], a)
  }

  /** The hit is the last of those that lie before the candidate. */
  ghost predicate NearestFront(img: seq<byte>, dump: Option<Dump>, deep: set<int>, start: int, end: int, a: int) {
    && IsHit(img, dump, deep, start, end, a) && a < start
    && forall b :: IsHit(img, dump, deep, start, end, b) && b < start ==> b <= a
  }

  /** When a candidate survives: no code in it, no hit in it, and the nearest hit
      before it, if any, belongs to a known function. */
  ghost predicate Survives(img: seq<byte>, dump: Option<Dump>, deep: set<int>, start: int, end: int) {
    && (dump.Some? ==> !Overlap(dump.value, start, end))
    && (forall a :: IsHit(img, dump, deep, start, end, a) ==>
          && start < end
          && !(start <= a < end)
          && (NearestFront(img, dump, deep, start, end, a) ==> Bounded(dump, a)))
  }

  lemma Inhabited(s: set<int>)
    requires s != {}
    ensures exists x :: x in s
  {
    assert (forall x :: x !in s) ==> s == {};
  }

  lemma {:induction false} HasMax(s: set<int>) returns (m: int)
    requires s != {}
    ensures m in s && forall x :: x in s ==> x <= m
    decreases |s|
  {
    Inhabited(s);
    var y :| y in s;
    m := y;
    var rest := s - {y};
    assert forall x :: x in s ==> x == y || x in rest;
    if rest == {} {
    } else {
      var z := HasMax(rest);
      m := if z > y then z else y;
    }
  }

  lemma {:induction false} HasMin(s: set<int>) returns (m: int)
    requires s != {}
    ensures m in s && forall x :: x in s ==> m <= x
    decreases |s|
  {
    Inhabited(s);
    var y :| y in s;
    m := y;
    var rest := s - {y};
    assert forall x :: x in s ==> x == y || x in rest;
    if rest == {} {
    } else {
      var z := HasMin(rest);
      m := if z < y then z else y;
    }
  }

  /** `hits` in `apply_exclusions` */
  method CollectHits(img: seq<byte>, dump: Option<Dump>, deep: set<int>, start: int, end: int) returns (hits: set<int>)
    requires start - LOOKBACK < end ==> 0 <= start - LOOKBACK && end <= WORD
    ensures forall a :: a in hits <==> IsHit(img, dump, deep, start, end, a)
  {
    hide Word;
    hits := RangeRegex.FindBe32InRange(img, start - LOOKBACK, end);
    hits := hits + deep;
    if dump.Some? {
      hits := hits + set a | a in dump.value.refs && start - LOOKBACK <= a < end;
    }
  }

  lemma NearestIs(img: seq<byte>, dump: Option<Dump>, deep: set<int>, start: int, end: int, hits: set<int>, a: int)
    requires forall b :: b in hits <==> IsHit(img, dump, deep, start, end, b)
    requires a in hits && a < start && forall b :: b in hits && b < start ==> b <= a
    ensures forall b :: NearestFront(img, dump, deep, start, end, b) <==> b == a
  {
    hide IsHit;
    assert IsHit(img, dump, deep, start, end, a);
  }

  /** What each rejection rests on. */
  lemma Lost(img: seq<byte>, dump: Option<Dump>, deep: set<int>, start: int, end: int)
    ensures dump.Some? && Overlap(dump.value, start, end) ==> !Survives(img, dump, deep, start, end)
    ensures forall a :: IsHit(img, dump, deep, start, end, a) && (start >= end || start <= a < end) ==>
              !Survives(img, dump, deep, start, end)
    ensures forall a :: NearestFront(img, dump, deep, start, end, a) && !Bounded(dump, a) ==>
              !Survives(img, dump, deep, start, end)
    ensures (forall a :: !IsHit(img, dump, deep, start, end, a)) && (dump.Some? ==> !Overlap(dump.value, start, end)) ==>
              Survives(img, dump, deep, start, end)
  {
    hide IsHit, Overlap, Bounded;
  }

  lemma BoundedIs(dump: Option<Dump>, a: int)
    ensures Bounded(dump, a) <==> dump.Some? && CoveringRange(dump.value.functions, a).Some?
  {
  }

  lemma Surviving(img: seq<byte>, dump: Option<Dump>, deep: set<int>, start: int, end: int, hits: set<int>, last: int)
    requires start < end && (dump.Some? ==> !Overlap(dump.value, start, end))
    requires forall b :: b in hits <==> IsHit(img, dump, deep, start, end, b)
    requires forall b :: b in hits ==> !(start <= b < end)
    requires forall b :: b in hits && b < start ==> b <= last && last in hits && last < start && Bounded(dump, last)
    ensures Survives(img, dump, deep, start, end)
  {
    hide IsHit, Overlap, Bounded;
  }

  /** The trimming branches cannot be taken: a function range that reaches into
      the candidate was already found to overlap it. */
  lemma NotTrimmed(d: Dump, start: int, end: int, before: int, inside: int)
    requires !Overlap(d, start, end)
    ensures var f := CoveringRange(d.functions, before);
            before < start && f.Some? && (start < end || f.value.hi < end) ==> f.value.hi <= start
    ensures start <= inside < end ==> CoveringRange(d.functions, inside).None?
  {
  }

  function Later(a: int, b: int): int {
    if b > a then b else a
  }

  /** `apply_exclusions`, without the evidence strings: the whole candidate
      exactly when it survives, and otherwise nothing. */
  method ApplyExclusions(start: int, end: int, img: seq<byte>, dump: Option<Dump>, deep: set<int>)
    returns (kept: Option<Interval>)
    requires start - LOOKBACK < end ==> 0 <= start - LOOKBACK && end <= WORD
    ensures kept == if Survives(img, dump, deep, start, end) then Some(Interval(start, end)) else None
  {
    hide IsHit, Overlap, Covers, CoveringRange, Survives, Bounded;
    Lost(img, dump, deep, start, end);
    if dump.Some? && Overlap(dump.value, start, end) {
      return None;
    }
    var hits := CollectHits(img, dump, deep, start, end);
    if hits == {} {
      return Some(Interval(start, end));
    }
    var front := set a | a in hits && a < start;
    var inside := set a | a in hits && start <= a < end;
    assert forall a :: a in hits && a < start ==> a in front;
    assert forall a :: a in hits && start <= a < end ==> a in inside;
    ghost var lastBefore, firstInside := start, start;
    var curStart := start;
    if front != {} {
      ghost var last := HasMax(front);
      var nearest :| nearest in front && forall x :: x in front ==> x <= nearest;
      NearestIs(img, dump, deep, start, end, hits, nearest);
      var bound := if dump.Some? then CoveringRange(dump.value.functions, nearest) else None;
      lastBefore := nearest;
      BoundedIs(dump, nearest);
      if bound.Some? && bound.value.hi <= start {
        // The object ends before the candidate: nothing to do.
      } else if bound.Some? && bound.value.hi < end {
        curStart := Later(curStart, bound.value.hi);
      } else {
        if bound.Some? {
          NotTrimmed(dump.value, start, end, nearest, start);
        }
        return None;
      }
    }
    if inside != {} {
      ghost var lowest := HasMin(inside);
      var first :| first in inside && forall x :: x in inside ==> first <= x;
      assert IsHit(img, dump, deep, start, end, first);
      var bound := if dump.Some? then CoveringRange(dump.value.functions, first) else None;
      firstInside := first;
      if bound.Some? && bound.value.hi < end {
        curStart := Later(curStart, bound.value.hi);
      } else {
        return None;
      }
    }
    if curStart >= end {
      return None;
    }
    if dump.Some? {
      NotTrimmed(dump.value, start, end, lastBefore, firstInside);
    }
    if inside == {} {
      Surviving(img, dump, deep, start, end, hits, lastBefore);
    }
    return Some(Interval(curStart, end));
  }

  // ---- What survival means ------------------------------------------------

  /** A candidate that is kept holds no referenced address and no code. */
  lemma SurvivorIsClean(img: seq<byte>, dump: Option<Dump>, deep: set<int>, start: int, end: int)
    requires Survives(img, dump, deep, start, end)
    ensures forall i :: 0 <= i <= |img| - 4 ==> !(start <= Word(img, i) < end)
    ensures forall a :: a in deep ==> !(start <= a < end)
    ensures dump.Some? ==>
              (forall k :: 0 <= k < |dump.value.refs| ==> !(start <= dump.value.refs[k] < end)) &&
              (start < end ==> forall k, a :: 0 <= k < |dump.value.functions| && start <= a < end ==> !Covers(dump.value.functions[k], a))
  {
    hide Word;
    forall i | 0 <= i <= |img| - 4
      ensures !(start <= Word(img, i) < end)
    {
      assert start <= Word(img, i) < end ==> IsHit(img, dump, deep, start, end, Word(img, i));
    }
    forall a | a in deep
      ensures !(start <= a < end)
    {
      assert IsHit(img, dump, deep, start, end, a);
    }
    if dump.Some? {
      forall k | 0 <= k < |dump.value.refs|
        ensures !(start <= dump.value.refs[k] < end)
      {
        var a := dump.value.refs[k];
        assert start <= a < end ==> IsHit(img, dump, deep, start, end, a);
      }
    }
  }

  /** The rule as the tool documents it: every hit, not only the nearest, must be
      bounded by a known function. */
  ghost predicate DocumentedRule(img: seq<byte>, dump: Option<Dump>, deep: set<int>, start: int, end: int) {
    && (dump.Some? ==> !Overlap(dump.value, start, end))
    && forall a :: IsHit(img, dump, deep, start, end, a) ==>
         start < end && !(start <= a < end) && (a < start ==> Bounded(dump, a))
  }

  /** The branches on which the code never looks past the nearest hit: nothing
      overlaps the candidate or lies in it, the nearest hit before it is bounded,
      and a farther one is not. */
  ghost predicate IgnoresFartherHit(img: seq<byte>, dump: Option<Dump>, deep: set<int>, start: int, end: int) {
    && start < end
    && (dump.Some? ==> !Overlap(dump.value, start, end))
    && (forall a :: IsHit(img, dump, deep, start, end, a) ==> !(start <= a < end))
    && exists near, far ::
         NearestFront(img, dump, deep, start, end, near) && Bounded(dump, near) &&
         IsHit(img, dump, deep, start, end, far) && far < near && !Bounded(dump, far)
  }

  /** Among the hits before a candidate, if any, one is nearest. */
  lemma HasNearest(img: seq<byte>, dump: Option<Dump>, deep: set<int>, start: int, end: int, a: int) returns (near: int)
    requires IsHit(img, dump, deep, start, end, a) && a < start
    ensures NearestFront(img, dump, deep, start, end, near) && a <= near
  {
    var deepFront := set x | x in deep && x < start;
    ghost var front := deepFront + set x | start - LOOKBACK <= x < start && IsHit(img, dump, deep, start, end, x);
    assert forall x :: x in front <==> x < start && IsHit(img, dump, deep, start, end, x);
    hide IsHit;
    near := HasMax(front);
  }

  /** The code keeps everything the documented rule keeps, and departs from the
      rule exactly on those branches. */
  lemma RuleAgainstDocumentation(img: seq<byte>, dump: Option<Dump>, deep: set<int>, start: int, end: int)
    ensures DocumentedRule(img, dump, deep, start, end) ==> Survives(img, dump, deep, start, end)
    ensures (Survives(img, dump, deep, start, end) <==> DocumentedRule(img, dump, deep, start, end)) <==>
            !IgnoresFartherHit(img, dump, deep, start, end)
  {
    hide IsHit, Overlap, Bounded;
    if Survives(img, dump, deep, start, end) && !DocumentedRule(img, dump, deep, start, end) {
      var far :| IsHit(img, dump, deep, start, end, far) && far < start && !Bounded(dump, far);
      var near := HasNearest(img, dump, deep, start, end, far);
      assert far < near;
    }
    if IgnoresFartherHit(img, dump, deep, start, end) {
      var near, far :|
        NearestFront(img, dump, deep, start, end, near) && Bounded(dump, near) &&
        IsHit(img, dump, deep, start, end, far) && far < near && !Bounded(dump, far);
      assert forall a :: NearestFront(img, dump, deep, start, end, a) ==> a == near;
    }
  }

  /** It does keep more: two pointers before a candidate, the nearer one into a
      known function, the farther one into nothing known. */
  lemma FartherHitIsIgnored()
    ensures var img := [0x40, 0x31, 0x1F, 0xE0, 0x40, 0x31, 0x1F, 0xF0];
            var dump := Some(Dump([Interval(0x4031_1FF0, 0x4031_2000)], []));
            Survives(img, dump, {}, 0x4031_2000, 0x4031_2100) &&
            !DocumentedRule(img, dump, {}, 0x4031_2000, 0x4031_2100)
  {
    var img: seq<byte> := [0x40, 0x31, 0x1F, 0xE0, 0x40, 0x31, 0x1F, 0xF0];
    var dump := Some(Dump([Interval(0x4031_1FF0, 0x4031_2000)], []));
    var start, end := 0x4031_2000, 0x4031_2100;
    assert Word(img, 0) == 0x4031_1FE0 && Word(img, 4) == 0x4031_1FF0;
    assert forall i :: 0 < i < 4 ==> Word(img, i) < start - LOOKBACK || Word(img, i) >= end;
    hide Word;
    assert IsHit(img, dump, {}, start, end, 0x4031_1FE0);
    assert IsHit(img, dump, {}, start, end, 0x4031_1FF0);
    assert Covers(dump.value.functions[0], 0x4031_1FF0);
    assert forall a :: IsHit(img, dump, {}, start, end, a) ==> a == 0x4031_1FE0 || a == 0x4031_1FF0;
  }
}
