/** Chapter navigation of the chapter view: the declared chapter range, the
    previous/next availability flags, the bounded walk that skips missing
    chapters by probing for their files, and the two navigate actions.
    The existence probe is a parameter: `probe(n)` is what the existence
    check answers for chapter `n` of the current collection. */
module ChapterNavigation {
  import opened Wrappers
  import opened ContentTypes

  datatype Direction = Next | Prev

  function Step(d: Direction): (r: int)
    ensures r == 1 || r == -1
    ensures d == Next <==> r == 1
  {
    if d == Next then 1 else -1
  }

  /** The `k`-th candidate of a walk from `from`. */
  function Candidate(from: int, d: Direction, k: int): int {
    if d == Next then from + k else from - k
  }

  /** Inclusive declared range `[start, last]`. */
  datatype ChapterRange = ChapterRange(start: int, last: int)

  predicate InRange(range: ChapterRange, n: int) {
    range.start <= n <= range.last
  }

  /** The range a chapter view uses: the start defaults to 1 and the count
      to 0 while the collection metadata is not loaded (or lacks a start). */
  function RangeOf(sutra: Option<SutraMeta>): (r: ChapterRange)
    ensures sutra.None? ==> r.start == 1 && r.last == 0
    ensures sutra.Some? ==> r.last - r.start + 1 == sutra.value.chapters
    ensures sutra.Some? && sutra.value.startChapter.Some? ==> r.start == sutra.value.startChapter.value
    ensures sutra.Some? && sutra.value.startChapter.None? ==> r.start == 1
  {
    var start := if sutra.Some? then sutra.value.startChapter.GetOr(1) else 1;
    var total := if sutra.Some? then sutra.value.chapters else 0;
    ChapterRange(start, start + total - 1)
  }

  predicate HasPrev(range: ChapterRange, chapterNum: int) {
    chapterNum > range.start
  }

  predicate HasNext(range: ChapterRange, chapterNum: int) {
    chapterNum < range.last
  }

  predicate HasAdjacent(range: ChapterRange, chapterNum: int, d: Direction) {
    if d == Next then HasNext(range, chapterNum) else HasPrev(range, chapterNum)
  }

  /** For a chapter inside the range, a flag is set exactly when the first
      candidate in its direction is still inside the range. */
  lemma FlagsMatchFirstCandidate(range: ChapterRange, chapterNum: int, d: Direction)
    requires InRange(range, chapterNum)
    ensures HasAdjacent(range, chapterNum, d) <==> InRange(range, Candidate(chapterNum, d, 1))
  {
  }

  /** Outcome of a walk: the chapter found (or none) and the candidates
      handed to the probe, in probing order. */
  datatype Walk = Walk(found: Option<int>, probed: seq<int>)

  /** The walk from loop iteration `i` on: the candidate of iteration `i`
      is `Candidate(from, d, i + 1)`. */
  function WalkFrom(range: ChapterRange, probe: int -> bool, from: int, d: Direction,
                    i: nat, maxAttempts: int): (w: Walk)
    ensures |w.probed| <= (if maxAttempts - i < 0 then 0 else maxAttempts - i)
    ensures w.found.Some? ==> InRange(range, w.found.value) && probe(w.found.value)
    decreases maxAttempts - i
  {
    if i >= maxAttempts then Walk(None, [])
    else
      var target := Candidate(from, d, i + 1);
      if !InRange(range, target) then Walk(None, [])
      else if probe(target) then Walk(Some(target), [target])
      else
        var rest := WalkFrom(range, probe, from, d, i + 1, maxAttempts);
        Walk(rest.found, [target] + rest.probed)
  }

  /** The walk from iteration `i` probes consecutive in-range candidates,
      at most one per remaining attempt, and stops at the first hit. */
  lemma {:induction false} WalkFromProperties(range: ChapterRange, probe: int -> bool, from: int,
                                              d: Direction, i: nat, maxAttempts: int)
    ensures var w := WalkFrom(range, probe, from, d, i, maxAttempts);
      var n := |w.probed|;
      && (i >= maxAttempts ==> w == Walk(None, []))
      && (i < maxAttempts ==> n <= maxAttempts - i)
      && (forall j :: 0 <= j < n ==> w.probed[j] == Candidate(from, d, i + j + 1))
      && (forall k :: i < k <= i + n ==> InRange(range, Candidate(from, d, k)))
      && (forall k :: i < k < i + n ==> !probe(Candidate(from, d, k)))
      && (w.found.Some? ==>
            n >= 1 && w.found.value == Candidate(from, d, i + n) && probe(w.found.value))
      && (w.found.None? ==>
            && (forall k :: i < k <= i + n ==> !probe(Candidate(from, d, k)))
            && (i + n >= maxAttempts || !InRange(range, Candidate(from, d, i + n + 1))))
    decreases maxAttempts - i
  {
    if i < maxAttempts {
      var target := Candidate(from, d, i + 1);
      if InRange(range, target) && !probe(target) {
        WalkFromProperties(range, probe, from, d, i + 1, maxAttempts);
        var rest := WalkFrom(range, probe, from, d, i + 1, maxAttempts);
        var w := WalkFrom(range, probe, from, d, i, maxAttempts);
        assert w.probed == [target] + rest.probed;
        forall j | 1 <= j < |w.probed|
          ensures w.probed[j] == Candidate(from, d, i + j + 1)
        {
          assert w.probed[j] == rest.probed[j - 1];
        }
      }
    }
  }

  /** What a walk of at most `maxAttempts` candidates from `from` must
      return: it probes consecutive in-range candidates `from + step`,
      `from + 2*step`, ..., stops at the first one the probe reports, and
      otherwise ends because the budget ran out or the next candidate left
      the range. */
  predicate IsWalkResult(range: ChapterRange, probe: int -> bool, from: int, d: Direction,
                         maxAttempts: int, w: Walk) {
    && |w.probed| <= (if maxAttempts < 0 then 0 else maxAttempts)
    && (forall j :: 0 <= j < |w.probed| ==> w.probed[j] == Candidate(from, d, j + 1))
    && (forall k :: 1 <= k <= |w.probed| ==> InRange(range, Candidate(from, d, k)))
    && (forall k :: 1 <= k < |w.probed| ==> !probe(Candidate(from, d, k)))
    && (w.found.Some? ==>
          && |w.probed| >= 1
          && w.found.value == Candidate(from, d, |w.probed|)
          && probe(w.found.value))
    && (w.found.None? ==>
          && (forall k :: 1 <= k <= |w.probed| ==> !probe(Candidate(from, d, k)))
          && (|w.probed| >= maxAttempts || !InRange(range, Candidate(from, d, |w.probed| + 1))))
  }

  /** The description above admits exactly one walk. */
  lemma WalkResultUnique(range: ChapterRange, probe: int -> bool, from: int, d: Direction,
                         maxAttempts: int, w1: Walk, w2: Walk)
    requires IsWalkResult(range, probe, from, d, maxAttempts, w1)
    requires IsWalkResult(range, probe, from, d, maxAttempts, w2)
    ensures w1 == w2
  {
    NoShorterWalk(range, probe, from, d, maxAttempts, w1, w2);
    NoShorterWalk(range, probe, from, d, maxAttempts, w2, w1);
    assert w1.probed == w2.probed;
  }

  /** A walk that stops early cannot coexist with one that goes further. */
  lemma NoShorterWalk(range: ChapterRange, probe: int -> bool, from: int, d: Direction,
                      maxAttempts: int, w1: Walk, w2: Walk)
    requires IsWalkResult(range, probe, from, d, maxAttempts, w1)
    requires IsWalkResult(range, probe, from, d, maxAttempts, w2)
    ensures |w2.probed| <= |w1.probed|
  {
  }

  /** `findNextValidChapter(direction, maxAttempts)`: at most `maxAttempts`
      candidates are examined, each is checked against the range before it
      is probed, and the walk stops at the first candidate outside the range
      or the first one the probe reports. */
  function FindNextValidChapter(range: ChapterRange, probe: int -> bool, chapterNum: int,
                                d: Direction, maxAttempts: int): (w: Walk)
    ensures IsWalkResult(range, probe, chapterNum, d, maxAttempts, w)
  {
    WalkFromProperties(range, probe, chapterNum, d, 0, maxAttempts);
    WalkFrom(range, probe, chapterNum, d, 0, maxAttempts)
  }

  /** The default bound of `findNextValidChapter`. */
  const DefaultMaxAttempts: int := 5

  /** A resolved chapter lies in the declared range, at most `maxAttempts`
      steps away in the walk's direction, exists according to the probe, and
      is never the current chapter; every chapter strictly between the two
      was probed and reported missing. */
  lemma {:induction false} ResolvedChapterProperties(range: ChapterRange, probe: int -> bool,
                                                     chapterNum: int, d: Direction, maxAttempts: int)
    requires FindNextValidChapter(range, probe, chapterNum, d, maxAttempts).found.Some?
    ensures var w := FindNextValidChapter(range, probe, chapterNum, d, maxAttempts);
      var c := w.found.value;
      var k := |w.probed|;
      && 1 <= k <= maxAttempts
      && (d == Next ==> c == chapterNum + k)
      && (d == Prev ==> c == chapterNum - k)
      && InRange(range, c)
      && probe(c)
      && c != chapterNum
      && (d == Next ==> c > chapterNum)
      && (d == Prev ==> c < chapterNum)
      && forall m :: 1 <= m < k ==> !probe(Candidate(chapterNum, d, m))
  {
    var w := FindNextValidChapter(range, probe, chapterNum, d, maxAttempts);
    var k := |w.probed|;
    forall m | 1 <= m < k
      ensures !probe(Candidate(chapterNum, d, m))
    {
      assert w.probed[m - 1] == Candidate(chapterNum, d, m);
    }
    assert w.probed[k - 1] == Candidate(chapterNum, d, k);
  }

  /** A walk started beyond the end of the range in its direction returns
      nothing without consulting the probe. */
  lemma BoundaryStopsWithoutProbing(range: ChapterRange, probe: int -> bool,
                                    chapterNum: int, d: Direction, maxAttempts: int)
    requires !InRange(range, Candidate(chapterNum, d, 1))
    ensures FindNextValidChapter(range, probe, chapterNum, d, maxAttempts) == Walk(None, [])
  {
  }

  /** The walk depends only on what the probe answers for the candidates it
      actually examines. */
  lemma {:induction false} WalkDependsOnlyOnProbed(range: ChapterRange, p1: int -> bool, p2: int -> bool,
                                                   from: int, d: Direction, i: nat, maxAttempts: int)
    requires forall k :: i < k <= maxAttempts && InRange(range, Candidate(from, d, k)) ==>
      p1(Candidate(from, d, k)) == p2(Candidate(from, d, k))
    ensures WalkFrom(range, p1, from, d, i, maxAttempts) == WalkFrom(range, p2, from, d, i, maxAttempts)
    decreases maxAttempts - i
  {
    if i < maxAttempts {
      var target := Candidate(from, d, i + 1);
      if InRange(range, target) {
        assert p1(target) == p2(target);
        if !p1(target) {
          WalkDependsOnlyOnProbed(range, p1, p2, from, d, i + 1, maxAttempts);
        }
      }
    }
  }

  /** The walk exactly as the source's loop runs it, recording each
      candidate handed to the probe. */
  method FindNextValidChapterLoop(range: ChapterRange, probe: int -> bool, chapterNum: int,
                                  d: Direction, maxAttempts: int)
    returns (found: Option<int>, probed: seq<int>)
    ensures IsWalkResult(range, probe, chapterNum, d, maxAttempts, Walk(found, probed))
    ensures Walk(found, probed) == FindNextValidChapter(range, probe, chapterNum, d, maxAttempts)
  {
    var step := Step(d);
    var targetChapter := chapterNum + step;
    probed := [];
    var i := 0;
    while i < maxAttempts
      invariant 0 <= i && |probed| == i
      invariant i == 0 || i <= maxAttempts
      invariant targetChapter == Candidate(chapterNum, d, i + 1)
      invariant forall j :: 0 <= j < i ==> probed[j] == Candidate(chapterNum, d, j + 1)
      invariant forall k :: 1 <= k <= i ==>
        InRange(range, Candidate(chapterNum, d, k)) && !probe(Candidate(chapterNum, d, k))
      decreases maxAttempts - i
    {
      if targetChapter < range.start || targetChapter > range.last {
        found := None;
        WalkResultUnique(range, probe, chapterNum, d, maxAttempts, Walk(found, probed),
                         FindNextValidChapter(range, probe, chapterNum, d, maxAttempts));
        return;
      }
      var chapterExists := probe(targetChapter);
      probed := probed + [targetChapter];
      if chapterExists {
        found := Some(targetChapter);
        WalkResultUnique(range, probe, chapterNum, d, maxAttempts, Walk(found, probed),
                         FindNextValidChapter(range, probe, chapterNum, d, maxAttempts));
        return;
      }
      targetChapter := targetChapter + step;
      i := i + 1;
    }
    found := None;
    WalkResultUnique(range, probe, chapterNum, d, maxAttempts, Walk(found, probed),
                     FindNextValidChapter(range, probe, chapterNum, d, maxAttempts));
  }

  /** What a navigate action does: the chapter it navigates to (if any),
      the route it pushes, and the candidates it probed. */
  datatype NavOutcome = NavOutcome(target: Option<int>, route: Option<string>, probed: seq<int>)

  /** `goToPrevChapter` / `goToNextChapter`: nothing happens, and nothing is
      probed, when the flag for the direction is off; otherwise the walk runs
      with the default bound and the result is followed only when it is
      truthy, so a resolved chapter 0 is dropped like a missing one. */
  function GoToChapter(sutraId: string, range: ChapterRange, probe: int -> bool,
                       chapterNum: int, d: Direction): (r: NavOutcome)
    ensures !HasAdjacent(range, chapterNum, d) ==> r == NavOutcome(None, None, [])
    ensures r.route.Some? <==> r.target.Some?
    ensures r.target.Some? ==>
      var c := r.target.value;
      && r.route.value == ChapterRoute(sutraId, c)
      && c != 0
      && InRange(range, c)
      && probe(c)
      && (d == Next ==> chapterNum < c <= chapterNum + DefaultMaxAttempts)
      && (d == Prev ==> chapterNum - DefaultMaxAttempts <= c < chapterNum)
    ensures |r.probed| <= DefaultMaxAttempts
    ensures forall j :: 0 <= j < |r.probed| ==> InRange(range, r.probed[j])
  {
    if !HasAdjacent(range, chapterNum, d) then NavOutcome(None, None, [])
    else
      var w := FindNextValidChapter(range, probe, chapterNum, d, DefaultMaxAttempts);
      if w.found.Some? && w.found.value != 0 then
        ResolvedChapterProperties(range, probe, chapterNum, d, DefaultMaxAttempts);
        NavOutcome(w.found, Some(ChapterRoute(sutraId, w.found.value)), w.probed)
      else NavOutcome(None, None, w.probed)
  }

  /** A walk that resolves chapter 0 leads nowhere: the truthiness test in
      the navigate action treats 0 as "no chapter". */
  lemma ResolvedZeroIsIgnored(sutraId: string, range: ChapterRange, probe: int -> bool,
                              chapterNum: int, d: Direction)
    requires HasAdjacent(range, chapterNum, d)
    requires FindNextValidChapter(range, probe, chapterNum, d, DefaultMaxAttempts).found == Some(0)
    ensures GoToChapter(sutraId, range, probe, chapterNum, d).target.None?
    ensures GoToChapter(sutraId, range, probe, chapterNum, d).probed != []
  {
  }

  /** Any other resolved chapter is navigated to. */
  lemma ResolvedNonZeroIsFollowed(sutraId: string, range: ChapterRange, probe: int -> bool,
                                  chapterNum: int, d: Direction, c: int)
    requires HasAdjacent(range, chapterNum, d)
    requires FindNextValidChapter(range, probe, chapterNum, d, DefaultMaxAttempts).found == Some(c)
    requires c != 0
    ensures GoToChapter(sutraId, range, probe, chapterNum, d).route == Some(ChapterRoute(sutraId, c))
  {
  }

  /** Before the metadata loads the range is empty: a flag may be set (the
      previous-chapter flag is, for any chapter above 1), but the walk stops
      at its first candidate, so neither action probes or navigates. */
  lemma NoNavigationBeforeMetadata(sutraId: string, probe: int -> bool, chapterNum: int, d: Direction)
    ensures GoToChapter(sutraId, RangeOf(None), probe, chapterNum, d) == NavOutcome(None, None, [])
  {
    if HasAdjacent(RangeOf(None), chapterNum, d) {
      BoundaryStopsWithoutProbing(RangeOf(None), probe, chapterNum, d, DefaultMaxAttempts);
    }
  }

  /** The worked example: chapters 5 and 9 exist in the range [1, 10]. */
  lemma ResolverExamples()
    ensures FindNextValidChapter(ChapterRange(1, 10), n => n == 5 || n == 9, 4, Next, 5).found == Some(5)
    ensures FindNextValidChapter(ChapterRange(1, 10), n => n == 5 || n == 9, 5, Next, 3).found == None
    ensures FindNextValidChapter(ChapterRange(1, 10), n => n == 5 || n == 9, 10, Next, 5).probed == []
  {
    var p := (n: int) => n == 5 || n == 9;
    var r := ChapterRange(1, 10);
    assert WalkFrom(r, p, 4, Next, 0, 5).found == Some(5);
    assert WalkFrom(r, p, 5, Next, 2, 3).found == None;
    assert WalkFrom(r, p, 5, Next, 1, 3).found == None;
    assert WalkFrom(r, p, 5, Next, 0, 3).found == None;
  }
}
