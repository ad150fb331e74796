/** `useChapterTitles`: which chapter files the table of titles loads, which
    loads contribute an entry, the number each entry carries, the title map,
    and the two ordering rules. Entries are collected in id order; the
    order in which loads complete is left to the lemmas, which show when it
    cannot matter. */
module ChapterTitles {
  import opened Wrappers
  import opened Strings
  import YamlLoader

  /** A chapter id or entry number: JavaScript `number | string`. */
  datatype ChapterId = Num(n: int) | Str(s: string)

  /** `${id}` and `String(id)`. */
  function IdText(id: ChapterId): string {
    match id
    case Num(n) => IntToDecimal(n)
    case Str(s) => s
  }

  /** A JavaScript truthiness test on a number or string. */
  predicate Truthy(id: ChapterId) {
    match id
    case Num(n) => n != 0
    case Str(s) => s != ""
  }

  /** The fields of a chapter file the hook reads. A file that parses to
      something other than an object is `None` at the loader. */
  datatype ChapterDoc = ChapterDoc(title: Option<string>, number: Option<ChapterId>)

  /** One entry of the table. */
  datatype ChapterInfo = ChapterInfo(number: ChapterId, title: string)

  // ---------------------------------------------------------------------
  // Which files are loaded
  // ---------------------------------------------------------------------

  /** A non-empty chapter list is used as is; otherwise `totalChapters`
      consecutive ids from `startChapter` (a negative count gives none, and
      a count past the array limit makes `Array.from` throw). */
  function IdsToFetch(total: int, start: int, chapterList: seq<ChapterId>): (ids: Result<seq<ChapterId>, string>)
    ensures |chapterList| > 0 ==> ids == Success(chapterList)
    ensures |chapterList| == 0 ==> (ids.Failure? <==> total > MaxArrayLength)
    ensures ids.Failure? ==> ids.error == InvalidArrayLength
    ensures |chapterList| == 0 && ids.Success? ==> |ids.value| == (if total < 0 then 0 else total)
    ensures |chapterList| == 0 && ids.Success? ==>
      forall i :: 0 <= i < |ids.value| ==> ids.value[i] == Num(start + i)
  {
    if |chapterList| > 0 then Success(chapterList)
    else
      match ArrayFromLength(total)
      case Failure(e) => Failure(e)
      case Success(n) => Success(seq(n, i => Num(i + start)))
  }

  /** The effect's guard: an id, and a list or a non-negative count. */
  predicate ShouldLoadTitles(sutraId: string, total: int, chapterList: seq<ChapterId>) {
    sutraId != "" && (|chapterList| > 0 || total >= 0)
  }

  /** `{BASE_URL}content/{sutraId}/chapter-{id}.yml`. */
  function TitlePath(base: string, sutraId: string, id: ChapterId): string {
    base + "content/" + sutraId + "/chapter-" + IdText(id) + ".yml"
  }

  /** For numeric ids the title loader reads the same file as the chapter
      view. */
  lemma TitlePathIsChapterPath(base: string, sutraId: string, n: int)
    ensures TitlePath(base, sutraId, Num(n)) == YamlLoader.ChapterPath(base, sutraId, n)
  {
  }

  /** What loading one id yields: the parsed document, or `None` when the
      load failed (the failure is swallowed) or parsed to a non-object. */
  function LoadTitleDoc(base: string, sutraId: string, fetch: string -> YamlLoader.FetchOutcome,
                        parse: string -> Result<Option<ChapterDoc>, YamlLoader.Thrown>,
                        id: ChapterId): (d: Option<ChapterDoc>)
    ensures YamlLoader.LoadYamlFromFile(TitlePath(base, sutraId, id), fetch, parse).Failure? ==> d.None?
    ensures YamlLoader.LoadYamlFromFile(TitlePath(base, sutraId, id), fetch, parse).Success? ==>
      d == YamlLoader.LoadYamlFromFile(TitlePath(base, sutraId, id), fetch, parse).value
  {
    match YamlLoader.LoadYamlFromFile(TitlePath(base, sutraId, id), fetch, parse)
    case Success(doc) => doc
    case Failure(_) => None
  }

  // ---------------------------------------------------------------------
  // Entries and the title map
  // ---------------------------------------------------------------------

  /** `data.number || chapterId`. */
  function NumberOf(d: ChapterDoc, id: ChapterId): (n: ChapterId)
    ensures d.number.Some? && Truthy(d.number.value) ==> n == d.number.value
    ensures !(d.number.Some? && Truthy(d.number.value)) ==> n == id
  {
    if d.number.Some? && Truthy(d.number.value) then d.number.value else id
  }

  /** The entry one load contributes: only a loaded document with a
      non-empty title counts. */
  function Contribution(id: ChapterId, doc: Option<ChapterDoc>): (r: Option<ChapterInfo>)
    ensures r.Some? <==> doc.Some? && doc.value.title.Some? && doc.value.title.value != ""
    ensures r.Some? ==> r.value == ChapterInfo(NumberOf(doc.value, id), doc.value.title.value)
  {
    match doc
    case None => None
    case Some(d) =>
      if d.title.Some? && d.title.value != "" then Some(ChapterInfo(NumberOf(d, id), d.title.value))
      else None
  }

  /** The entries, in id order. */
  function Collect(ids: seq<ChapterId>, load: ChapterId -> Option<ChapterDoc>): (es: seq<ChapterInfo>)
    ensures |es| <= |ids|
    decreases |ids|
  {
    if |ids| == 0 then []
    else
      var rest := Collect(ids[1..], load);
      match Contribution(ids[0], load(ids[0]))
      case Some(e) => [e] + rest
      case None => rest
  }

  /** An entry is in the table exactly when some id contributed it. */
  lemma {:induction false} CollectSpec(ids: seq<ChapterId>, load: ChapterId -> Option<ChapterDoc>, e: ChapterInfo)
    ensures e in Collect(ids, load) <==>
      exists i :: 0 <= i < |ids| && Contribution(ids[i], load(ids[i])) == Some(e)
    decreases |ids|
  {
    if |ids| > 0 {
      CollectSpec(ids[1..], load, e);
      if e in Collect(ids[1..], load) {
        var i :| 0 <= i < |ids| - 1 && Contribution(ids[1..][i], load(ids[1..][i])) == Some(e);
        assert Contribution(ids[i + 1], load(ids[i + 1])) == Some(e);
      }
      if exists i :: 0 <= i < |ids| && Contribution(ids[i], load(ids[i])) == Some(e) {
        var i :| 0 <= i < |ids| && Contribution(ids[i], load(ids[i])) == Some(e);
        if i > 0 {
          assert ids[1..][i - 1] == ids[i];
        }
      }
    }
  }

  /** The indices whose load contributes exactly the entry `e`. */
  function ContributorsOf(ids: seq<ChapterId>, load: ChapterId -> Option<ChapterDoc>, e: ChapterInfo): set<int> {
    set i | 0 <= i < |ids| && Contribution(ids[i], load(ids[i])) == Some(e)
  }

  /** Adding one to every element keeps the number of elements. */
  lemma {:induction false} ShiftCard(t: set<int>)
    ensures |set j | j in t :: j + 1| == |t|
    decreases |t|
  {
    if |t| > 0 {
      assert exists x :: x in t by {
        if forall x :: x !in t {
          assert false;
        }
      }
      var x :| x in t;
      var t' := t - {x};
      ShiftCard(t');
      var s := set j | j in t :: j + 1;
      var s' := set j | j in t' :: j + 1;
      forall y | y in s
        ensures y in s' + {x + 1}
      {
        var j :| j in t && y == j + 1;
        if j != x {
          assert j in t';
        }
      }
      assert s == s' + {x + 1};
      assert x + 1 !in s';
    }
  }

  /** The contributors of a sequence are its head's, if any, and its
      tail's shifted by one. */
  lemma ContributorsSplit(ids: seq<ChapterId>, load: ChapterId -> Option<ChapterDoc>, e: ChapterInfo)
    requires |ids| > 0
    ensures var head: set<int> := if Contribution(ids[0], load(ids[0])) == Some(e) then {0} else {};
      ContributorsOf(ids, load, e) == head + set j | j in ContributorsOf(ids[1..], load, e) :: j + 1
  {
    var tail := ids[1..];
    var t := ContributorsOf(tail, load, e);
    var shifted := set j | j in t :: j + 1;
    var head: set<int> := if Contribution(ids[0], load(ids[0])) == Some(e) then {0} else {};
    forall i | i in ContributorsOf(ids, load, e)
      ensures i in head + shifted
    {
      if i > 0 {
        assert tail[i - 1] == ids[i];
        assert i - 1 in t;
      }
    }
    forall i | i in head + shifted
      ensures i in ContributorsOf(ids, load, e)
    {
      if i in shifted {
        var j :| j in t && i == j + 1;
        assert tail[j] == ids[i];
      }
    }
  }

  /** Every load that contributes an entry adds one copy of it: duplicate
      ids, or distinct ids whose files carry the same number and title, give
      repeated entries, and nothing else is in the table. */
  lemma {:induction false} CollectCounts(ids: seq<ChapterId>, load: ChapterId -> Option<ChapterDoc>, e: ChapterInfo)
    ensures multiset(Collect(ids, load))[e] == |ContributorsOf(ids, load, e)|
    decreases |ids|
  {
    if |ids| > 0 {
      CollectCounts(ids[1..], load, e);
      var t := ContributorsOf(ids[1..], load, e);
      var shifted := set j | j in t :: j + 1;
      ShiftCard(t);
      ContributorsSplit(ids, load, e);
      var head: set<int> := if Contribution(ids[0], load(ids[0])) == Some(e) then {0} else {};
      assert head * shifted == {};
      assert |ContributorsOf(ids, load, e)| == |head| + |shifted|;
    }
  }

  /** The title map, keyed by the requested id (not the entry's number). */
  function TitleMap(ids: seq<ChapterId>, load: ChapterId -> Option<ChapterDoc>): (m: map<ChapterId, string>)
    ensures forall k :: k in m ==> Contribution(k, load(k)).Some? && m[k] == Contribution(k, load(k)).value.title
    ensures forall k :: k in m <==> k in ids && Contribution(k, load(k)).Some?
    decreases |ids|
  {
    if |ids| == 0 then map[]
    else
      var m := TitleMap(ids[..|ids| - 1], load);
      var id := ids[|ids| - 1];
      assert ids == ids[..|ids| - 1] + [id];
      match Contribution(id, load(id))
      case Some(e) => m[id := e.title]
      case None => m
  }

  /** A chapter is listed in the title map under the id it was requested
      by, while its table entry carries the number its file declares. */
  lemma TitleMapKeyedById(id: ChapterId, load: ChapterId -> Option<ChapterDoc>)
    requires load(id).Some? && load(id).value.title.Some? && load(id).value.title.value != ""
    ensures TitleMap([id], load) == map[id := load(id).value.title.value]
    ensures Collect([id], load) == [ChapterInfo(NumberOf(load(id).value, id), load(id).value.title.value)]
  {
    assert [id][1..] == [];
  }

  // ---------------------------------------------------------------------
  // Ordering
  // ---------------------------------------------------------------------

  /** The comparator in force: list position when a chapter list is given,
      otherwise chapter number. */
  datatype Ordering = ByListIndex(list: seq<ChapterId>) | ByNumber

  /** `list.indexOf(x)` with strict equality: the leftmost position, or -1. */
  function IndexIn(list: seq<ChapterId>, x: ChapterId): (r: int)
    ensures -1 <= r < |list|
    ensures r == -1 <==> x !in list
    ensures r >= 0 ==> list[r] == x && forall j :: 0 <= j < r ==> list[j] != x
    decreases |list|
  {
    if |list| == 0 then -1
    else if list[0] == x then 0
    else
      var r := IndexIn(list[1..], x);
      if r == -1 then -1 else r + 1
  }

  /** Code-point order on strings, standing in for `localeCompare`. */
  function CodePointCompare(a: string, b: string): (r: int)
    ensures -1 <= r <= 1
    ensures r == 0 <==> a == b
    decreases |a|
  {
    if |a| == 0 && |b| == 0 then 0
    else if |a| == 0 then -1
    else if |b| == 0 then 1
    else if a[0] < b[0] then -1
    else if a[0] > b[0] then 1
    else
      var r := CodePointCompare(a[1..], b[1..]);
      assert r == 0 ==> a == [a[0]] + a[1..] && b == [b[0]] + b[1..];
      r
  }

  /** The sort comparator: `idxA - idxB` with a list; without one the
      difference of numbers when both are numbers, else a string comparison. */
  function Compare(order: Ordering, a: ChapterInfo, b: ChapterInfo): (c: int)
    ensures a.number == b.number ==> c == 0
    ensures order.ByListIndex? ==>
      (c < 0 <==> IndexIn(order.list, a.number) < IndexIn(order.list, b.number))
    ensures order.ByNumber? && a.number.Num? && b.number.Num? ==> (c < 0 <==> a.number.n < b.number.n)
    ensures order.ByNumber? && !(a.number.Num? && b.number.Num?) ==> -1 <= c <= 1
  {
    match order
    case ByListIndex(list) => IndexIn(list, a.number) - IndexIn(list, b.number)
    case ByNumber =>
      if a.number.Num? && b.number.Num? then a.number.n - b.number.n
      else CodePointCompare(IdText(a.number), IdText(b.number))
  }

  /** Stable insertion of `x` after every element that does not compare
      greater than it. */
  function Insert(order: Ordering, s: seq<ChapterInfo>, x: ChapterInfo): (r: seq<ChapterInfo>)
    ensures |r| == |s| + 1
    decreases |s|
  {
    if |s| == 0 then [x]
    else if Compare(order, x, s[|s| - 1]) < 0 then Insert(order, s[..|s| - 1], x) + [s[|s| - 1]]
    else s + [x]
  }

  /** `chapterInfos.sort(comparator)`, as a stable insertion sort. */
  function SortInfos(order: Ordering, s: seq<ChapterInfo>): (r: seq<ChapterInfo>)
    ensures |r| == |s|
    decreases |s|
  {
    if |s| == 0 then [] else Insert(order, SortInfos(order, s[..|s| - 1]), s[|s| - 1])
  }

  /** The sort key: the list position, or the number itself. */
  function Key(order: Ordering, e: ChapterInfo): int {
    match order
    case ByListIndex(list) => IndexIn(list, e.number)
    case ByNumber => if e.number.Num? then e.number.n else 0
  }

  /** The comparator is the difference of keys: always with a list, and for
      numeric entries without one. */
  predicate KeyedEntry(order: Ordering, e: ChapterInfo) {
    order.ByListIndex? || e.number.Num?
  }

  predicate AllKeyed(order: Ordering, s: seq<ChapterInfo>) {
    forall e :: e in s ==> KeyedEntry(order, e)
  }

  predicate SortedBy(order: Ordering, s: seq<ChapterInfo>) {
    forall i, j :: 0 <= i < j < |s| ==> Key(order, s[i]) <= Key(order, s[j])
  }

  lemma {:induction false} InsertPermutes(order: Ordering, s: seq<ChapterInfo>, x: ChapterInfo)
    ensures multiset(Insert(order, s, x)) == multiset(s) + multiset{x}
    decreases |s|
  {
    if |s| > 0 && Compare(order, x, s[|s| - 1]) < 0 {
      InsertPermutes(order, s[..|s| - 1], x);
      assert s == s[..|s| - 1] + [s[|s| - 1]];
    }
  }

  /** Sorting rearranges the entries and loses or adds none. */
  lemma {:induction false} SortPermutes(order: Ordering, s: seq<ChapterInfo>)
    ensures multiset(SortInfos(order, s)) == multiset(s)
    decreases |s|
  {
    if |s| > 0 {
      var init, last := s[..|s| - 1], s[|s| - 1];
      SortPermutes(order, init);
      var sorted := SortInfos(order, init);
      InsertPermutes(order, sorted, last);
      assert SortInfos(order, s) == Insert(order, sorted, last);
      assert s == init + [last];
      assert multiset(s) == multiset(init) + multiset{last};
    }
  }

  lemma CompareIsKeyDifference(order: Ordering, a: ChapterInfo, b: ChapterInfo)
    requires KeyedEntry(order, a) && KeyedEntry(order, b)
    ensures Compare(order, a, b) == Key(order, a) - Key(order, b)
  {
  }

  lemma {:induction false} InsertSorted(order: Ordering, s: seq<ChapterInfo>, x: ChapterInfo)
    requires AllKeyed(order, s) && KeyedEntry(order, x)
    requires SortedBy(order, s)
    ensures SortedBy(order, Insert(order, s, x))
    decreases |s|
  {
    if |s| > 0 {
      var last := s[|s| - 1];
      assert last in s;
      CompareIsKeyDifference(order, x, last);
      if Compare(order, x, last) < 0 {
        var s' := s[..|s| - 1];
        assert forall e :: e in s' ==> e in s;
        InsertSorted(order, s', x);
        InsertBeforeLast(order, s, x);
      } else {
        AppendLargest(order, s, x);
      }
    }
  }

  /** Appending an entry whose key is at least the last key keeps order. */
  lemma AppendLargest(order: Ordering, s: seq<ChapterInfo>, x: ChapterInfo)
    requires |s| > 0 && SortedBy(order, s)
    requires Key(order, x) >= Key(order, s[|s| - 1])
    ensures SortedBy(order, s + [x])
  {
    var r := s + [x];
    forall i, j | 0 <= i < j < |r|
      ensures Key(order, r[i]) <= Key(order, r[j])
    {
      assert r[i] == s[i];
      if j < |s| {
        assert r[j] == s[j];
      }
    }
  }

  /** The step where `x` goes before the last entry. */
  lemma InsertBeforeLast(order: Ordering, s: seq<ChapterInfo>, x: ChapterInfo)
    requires |s| > 0 && SortedBy(order, s)
    requires Key(order, x) < Key(order, s[|s| - 1])
    requires SortedBy(order, Insert(order, s[..|s| - 1], x))
    ensures SortedBy(order, Insert(order, s[..|s| - 1], x) + [s[|s| - 1]])
  {
    var s' := s[..|s| - 1];
    var last := s[|s| - 1];
    InsertPermutes(order, s', x);
    var t := Insert(order, s', x);
    forall i | 0 <= i < |t|
      ensures Key(order, t[i]) <= Key(order, last)
    {
      MemberOfInsert(t, s', x, i);
      if t[i] != x {
        var j :| 0 <= j < |s'| && s'[j] == t[i];
        assert s[j] == t[i];
      }
    }
    AppendLargestOf(order, t, last);
  }

  /** An element of a permutation of `s` plus `x` is `x` or an element of `s`. */
  lemma MemberOfInsert<T>(t: seq<T>, s: seq<T>, x: T, i: int)
    requires multiset(t) == multiset(s) + multiset{x} && 0 <= i < |t|
    ensures t[i] == x || exists j :: 0 <= j < |s| && s[j] == t[i]
  {
    assert t[i] in multiset(t);
    if t[i] != x {
      assert t[i] in multiset(s);
    }
  }

  /** Appending an entry whose key bounds every key keeps order. */
  lemma AppendLargestOf(order: Ordering, t: seq<ChapterInfo>, y: ChapterInfo)
    requires SortedBy(order, t)
    requires forall i :: 0 <= i < |t| ==> Key(order, t[i]) <= Key(order, y)
    ensures SortedBy(order, t + [y])
  {
    var r := t + [y];
    forall i, j | 0 <= i < j < |r|
      ensures Key(order, r[i]) <= Key(order, r[j])
    {
      assert r[i] == t[i];
      if j < |t| {
        assert r[j] == t[j];
      }
    }
  }

  /** Given keys, the sort orders the entries by key. */
  lemma {:induction false} SortSorted(order: Ordering, s: seq<ChapterInfo>)
    requires AllKeyed(order, s)
    ensures SortedBy(order, SortInfos(order, s))
    decreases |s|
  {
    if |s| > 0 {
      var s' := s[..|s| - 1];
      assert forall e :: e in s' ==> e in s;
      SortSorted(order, s');
      SortPermutes(order, s');
      forall e | e in SortInfos(order, s')
        ensures KeyedEntry(order, e)
      {
        assert e in multiset(SortInfos(order, s'));
      }
      InsertSorted(order, SortInfos(order, s'), s[|s| - 1]);
    }
  }

  /** Entries that share a key are identical. */
  predicate KeyDetermines(order: Ordering, s: seq<ChapterInfo>) {
    forall a, b :: a in s && b in s && Key(order, a) == Key(order, b) ==> a == b
  }

  /** Two key-sorted arrangements of the same entries, where a key
      determines its entry, are the same sequence. */
  lemma {:induction false} SortedPermutationUnique(order: Ordering, s1: seq<ChapterInfo>, s2: seq<ChapterInfo>)
    requires multiset(s1) == multiset(s2)
    requires SortedBy(order, s1) && SortedBy(order, s2)
    requires KeyDetermines(order, s1)
    ensures s1 == s2
    decreases |s1|
  {
    assert |s1| == |multiset(s1)| == |s2|;
    if |s1| > 0 {
      SameFirst(order, s1, s2);
      TailsAgree(order, s1, s2);
      SortedPermutationUnique(order, s1[1..], s2[1..]);
      assert s1 == [s1[0]] + s1[1..] && s2 == [s2[0]] + s2[1..];
    }
  }

  /** Both arrangements start with the same entry: each first entry has the
      least key of the other. */
  lemma SameFirst(order: Ordering, s1: seq<ChapterInfo>, s2: seq<ChapterInfo>)
    requires |s1| > 0 && |s2| > 0 && multiset(s1) == multiset(s2)
    requires SortedBy(order, s1) && SortedBy(order, s2)
    requires KeyDetermines(order, s1)
    ensures s1[0] == s2[0]
  {
    var a, b := s1[0], s2[0];
    assert a in multiset(s2) && b in multiset(s1);
    var i :| 0 <= i < |s2| && s2[i] == a;
    var j :| 0 <= j < |s1| && s1[j] == b;
    assert Key(order, b) <= Key(order, a);
    assert Key(order, a) <= Key(order, b);
  }

  /** After a common first entry the rests are again sorted arrangements of
      the same entries. */
  lemma TailsAgree(order: Ordering, s1: seq<ChapterInfo>, s2: seq<ChapterInfo>)
    requires |s1| > 0 && |s2| > 0 && s1[0] == s2[0] && multiset(s1) == multiset(s2)
    requires SortedBy(order, s1) && SortedBy(order, s2)
    requires KeyDetermines(order, s1)
    ensures multiset(s1[1..]) == multiset(s2[1..])
    ensures SortedBy(order, s1[1..]) && SortedBy(order, s2[1..])
    ensures KeyDetermines(order, s1[1..])
  {
    MultisetTails(s1, s2);
    assert forall e :: e in s1[1..] ==> e in s1;
  }

  lemma MultisetTails<T>(s1: seq<T>, s2: seq<T>)
    requires |s1| > 0 && |s2| > 0 && s1[0] == s2[0] && multiset(s1) == multiset(s2)
    ensures multiset(s1[1..]) == multiset(s2[1..])
  {
    assert s1 == [s1[0]] + s1[1..] && s2 == [s2[0]] + s2[1..];
    assert multiset(s1[1..]) == multiset(s1) - multiset{s1[0]};
    assert multiset(s2[1..]) == multiset(s2) - multiset{s2[0]};
  }

  /** Without a chapter list, when every number is numeric and no two
      entries share a number, the sorted table is the same whichever order
      the loads completed in. */
  lemma CompletionOrderIrrelevant(e1: seq<ChapterInfo>, e2: seq<ChapterInfo>)
    requires multiset(e1) == multiset(e2)
    requires forall e :: e in e1 ==> e.number.Num?
    requires forall a, b :: a in e1 && b in e1 && a.number == b.number ==> a == b
    ensures SortInfos(ByNumber, e1) == SortInfos(ByNumber, e2)
  {
    forall e | e in e2
      ensures e.number.Num?
    {
      assert e in multiset(e1);
    }
    SortSorted(ByNumber, e1);
    SortSorted(ByNumber, e2);
    SortPermutes(ByNumber, e1);
    SortPermutes(ByNumber, e2);
    var r1 := SortInfos(ByNumber, e1);
    forall a, b | a in r1 && b in r1 && Key(ByNumber, a) == Key(ByNumber, b)
      ensures a == b
    {
      assert a in multiset(e1) && b in multiset(e1);
    }
    SortedPermutationUnique(ByNumber, r1, SortInfos(ByNumber, e2));
  }

  /** Without a chapter list and with numeric numbers, the table ascends by
      number. */
  lemma NumericTableAscends(s: seq<ChapterInfo>)
    requires forall e :: e in s ==> e.number.Num?
    ensures var r := SortInfos(ByNumber, s);
      && (forall i :: 0 <= i < |r| ==> r[i].number.Num?)
      && (forall i, j :: 0 <= i < j < |r| ==> r[i].number.n <= r[j].number.n)
  {
    SortSorted(ByNumber, s);
    SortPermutes(ByNumber, s);
    var r := SortInfos(ByNumber, s);
    forall i | 0 <= i < |r|
      ensures r[i].number.Num?
    {
      assert r[i] in multiset(s);
    }
  }

  /** With a chapter list, entries follow their numbers' positions in the
      list, and entries whose number is not listed come first. */
  lemma ListOrderRespected(list: seq<ChapterId>, s: seq<ChapterInfo>)
    ensures var r := SortInfos(ByListIndex(list), s);
      && (forall i, j :: 0 <= i < j < |r| ==>
            IndexIn(list, r[i].number) <= IndexIn(list, r[j].number))
      && (forall i, j :: 0 <= i < |r| && 0 <= j < |r| && r[j].number in list && r[i].number !in list ==> i < j)
  {
    SortSorted(ByListIndex(list), s);
  }

  // ---------------------------------------------------------------------
  // The effect
  // ---------------------------------------------------------------------

  datatype TitlesState = TitlesState(titles: map<ChapterId, string>, chapters: seq<ChapterInfo>,
                                     loading: bool, error: Option<string>)

  /** The titles effect, run to completion with loads completing in id
      order. Failed loads are skipped; the only error the effect reports is
      the `RangeError` of a count past the array limit, which leaves the
      table as it was. */
  function TitlesEffect(s: TitlesState, sutraId: string, total: int, start: int,
                        chapterList: seq<ChapterId>, load: ChapterId -> Option<ChapterDoc>): (r: TitlesState)
    ensures !ShouldLoadTitles(sutraId, total, chapterList) ==> r == s
    ensures ShouldLoadTitles(sutraId, total, chapterList) ==> !r.loading
    ensures ShouldLoadTitles(sutraId, total, chapterList) && |chapterList| == 0 && total > MaxArrayLength ==>
      r.error == Some(InvalidArrayLength) && r.titles == s.titles && r.chapters == s.chapters
    ensures ShouldLoadTitles(sutraId, total, chapterList) && (|chapterList| > 0 || total <= MaxArrayLength) ==>
      var ids := IdsToFetch(total, start, chapterList).value;
      && r.error.None?
      && multiset(r.chapters) == multiset(Collect(ids, load))
      && (forall k :: k in r.titles <==> k in ids && Contribution(k, load(k)).Some?)
      && (forall k :: k in r.titles ==> r.titles[k] == Contribution(k, load(k)).value.title)
  {
    if ShouldLoadTitles(sutraId, total, chapterList) then
      match IdsToFetch(total, start, chapterList)
      case Failure(e) => s.(loading := false, error := Some(e))
      case Success(ids) =>
        var order := if |chapterList| > 0 then ByListIndex(chapterList) else ByNumber;
        SortPermutes(order, Collect(ids, load));
        TitlesState(TitleMap(ids, load), SortInfos(order, Collect(ids, load)), false, None)
    else s
  }
}
