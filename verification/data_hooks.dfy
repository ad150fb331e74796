/** The data hooks: `useChapterData` and `useSutraData` load one document
    and expose `{data, loading, error}`; `useAllSutras` loads the fixed list
    of collections, all or nothing. Each effect is a transition of the hook
    state, taken once the load settles; the validators are parameters. */
module DataHooks {
  import opened Wrappers
  import opened YamlLoader

  /** The state a single-document hook returns. */
  datatype LoadState<T> = LoadState(data: Option<T>, loading: bool, error: Option<string>)

  /** The state before any load has settled. */
  function InitialState<T>(): (s: LoadState<T>)
    ensures s.data.None? && s.loading && s.error.None?
  {
    LoadState(None, true, None)
  }

  /** A settled load: not loading, and exactly one of data and error. */
  predicate Settled<T>(s: LoadState<T>) {
    !s.loading && (s.data.Some? <==> s.error.None?)
  }

  /** Load a document and check it against a schema: load errors pass
      through, a document the validator rejects becomes `invalidMessage`. */
  function LoadValidated<D>(path: string, fetch: string -> FetchOutcome,
                            parse: string -> Result<D, Thrown>, valid: D -> bool,
                            invalidMessage: string): (r: Result<D, string>)
    ensures r.Success? <==> LoadYamlFromFile(path, fetch, parse).Success?
                            && valid(LoadYamlFromFile(path, fetch, parse).value)
    ensures r.Success? ==> r.value == LoadYamlFromFile(path, fetch, parse).value
    ensures LoadYamlFromFile(path, fetch, parse).Failure? ==> r == LoadYamlFromFile(path, fetch, parse)
    ensures LoadYamlFromFile(path, fetch, parse).Success? && r.Failure? ==> r.error == invalidMessage
  {
    match LoadYamlFromFile(path, fetch, parse)
    case Failure(e) => Failure(e)
    case Success(d) => if valid(d) then Success(d) else Failure(invalidMessage)
  }

  /** The body of a fetch effect: the start clears the error and sets
      `loading` (previous data stays visible), and the settled outcome sets
      exactly one of data and error. */
  function Settle<D>(s: LoadState<D>, outcome: Result<D, string>): (r: LoadState<D>)
    ensures Settled(r)
    ensures outcome.Success? ==> r.data == Some(outcome.value)
    ensures outcome.Failure? ==> r.error == Some(outcome.error) && r.data.None?
  {
    match outcome
    case Success(d) => LoadState(Some(d), false, None)
    case Failure(e) => LoadState(None, false, Some(e))
  }

  // ---------------------------------------------------------------------
  // useChapterData
  // ---------------------------------------------------------------------

  const InvalidChapterError: string := "Invalid chapter schema"

  /** The guard of the chapter effect. */
  predicate ShouldFetchChapter(sutraId: string, chapterNum: int) {
    sutraId != "" && chapterNum > 0
  }

  /** The chapter effect, run to completion from state `s`. */
  function ChapterEffect<D>(s: LoadState<D>, base: string, sutraId: string, chapterNum: int,
                            fetch: string -> FetchOutcome, parse: string -> Result<D, Thrown>,
                            valid: D -> bool): (r: LoadState<D>)
    ensures !ShouldFetchChapter(sutraId, chapterNum) ==> r == s
    ensures ShouldFetchChapter(sutraId, chapterNum) ==> Settled(r)
    ensures ShouldFetchChapter(sutraId, chapterNum) ==>
      var loaded := LoadYamlFromFile(ChapterPath(base, sutraId, chapterNum), fetch, parse);
      && (r.data.Some? <==> loaded.Success? && valid(loaded.value))
      && (r.data.Some? ==> r.data.value == loaded.value)
      && (loaded.Success? && !valid(loaded.value) ==> r.error == Some(InvalidChapterError))
      && (loaded.Failure? ==> r.error == Some(loaded.error))
  {
    if ShouldFetchChapter(sutraId, chapterNum) then
      Settle(s, LoadValidated(ChapterPath(base, sutraId, chapterNum), fetch, parse, valid, InvalidChapterError))
    else s
  }

  /** Chapter 0, negative chapters and a missing collection id never load:
      the hook stays in its initial loading state. */
  lemma ChapterZeroNeverLoads<D>(base: string, sutraId: string, chapterNum: int,
                                 fetch: string -> FetchOutcome, parse: string -> Result<D, Thrown>,
                                 valid: D -> bool)
    requires sutraId == "" || chapterNum <= 0
    ensures ChapterEffect(InitialState(), base, sutraId, chapterNum, fetch, parse, valid) == InitialState()
  {
  }

  /** The chapter effect reads nothing but the chapter's own path. */
  lemma ChapterEffectReadsOnlyItsPath<D>(s: LoadState<D>, base: string, sutraId: string, chapterNum: int,
                                         f1: string -> FetchOutcome, f2: string -> FetchOutcome,
                                         parse: string -> Result<D, Thrown>, valid: D -> bool)
    requires f1(ChapterPath(base, sutraId, chapterNum)) == f2(ChapterPath(base, sutraId, chapterNum))
    ensures ChapterEffect(s, base, sutraId, chapterNum, f1, parse, valid)
         == ChapterEffect(s, base, sutraId, chapterNum, f2, parse, valid)
  {
    LoadDependsOnlyOnPath(ChapterPath(base, sutraId, chapterNum), f1, f2, parse);
  }

  // ---------------------------------------------------------------------
  // useSutraData
  // ---------------------------------------------------------------------

  const InvalidMetaError: string := "Invalid sutra metadata schema"

  /** The collection-metadata effect: guarded only by a non-empty id. */
  function SutraEffect<D>(s: LoadState<D>, base: string, sutraId: string,
                          fetch: string -> FetchOutcome, parse: string -> Result<D, Thrown>,
                          valid: D -> bool): (r: LoadState<D>)
    ensures sutraId == "" ==> r == s
    ensures sutraId != "" ==> Settled(r)
    ensures sutraId != "" ==>
      var loaded := LoadYamlFromFile(MetaPath(base, sutraId), fetch, parse);
      && (r.data.Some? <==> loaded.Success? && valid(loaded.value))
      && (r.data.Some? ==> r.data.value == loaded.value)
      && (loaded.Success? && !valid(loaded.value) ==> r.error == Some(InvalidMetaError))
      && (loaded.Failure? ==> r.error == Some(loaded.error))
  {
    if sutraId != "" then
      Settle(s, LoadValidated(MetaPath(base, sutraId), fetch, parse, valid, InvalidMetaError))
    else s
  }

  // ---------------------------------------------------------------------
  // useAllSutras
  // ---------------------------------------------------------------------

  /** The collections the home page lists, in order. */
  const SutraIds: seq<string> := ["diamond-sutra", "heart-sutra", "samyukta-agama"]

  /** The schema error of one entry of the all-collections load. */
  function InvalidMetaFor(id: string): string {
    "Invalid metadata for " + id
  }

  /** One entry of the all-collections load. */
  function LoadMeta<D>(base: string, id: string, fetch: string -> FetchOutcome,
                       parse: string -> Result<D, Thrown>, valid: D -> bool): (r: Result<D, string>)
    ensures r.Success? <==> LoadYamlFromFile(MetaPath(base, id), fetch, parse).Success?
                            && valid(LoadYamlFromFile(MetaPath(base, id), fetch, parse).value)
    ensures r.Success? ==> r.value == LoadYamlFromFile(MetaPath(base, id), fetch, parse).value
    ensures LoadYamlFromFile(MetaPath(base, id), fetch, parse).Failure? ==>
      r == LoadYamlFromFile(MetaPath(base, id), fetch, parse)
    ensures LoadYamlFromFile(MetaPath(base, id), fetch, parse).Success? && r.Failure? ==>
      r.error == InvalidMetaFor(id)
  {
    LoadValidated(MetaPath(base, id), fetch, parse, valid, InvalidMetaFor(id))
  }

  /** `Promise.all` over loads that each succeed or fail: every value in
      list order, or the first failure in list order. */
  function LoadEach<D>(ids: seq<string>, load: string -> Result<D, string>): (r: Result<seq<D>, string>)
    ensures r.Success? ==> |r.value| == |ids|
    ensures |ids| > 0 && load(ids[0]).Failure? ==> r == Failure(load(ids[0]).error)
    decreases |ids|
  {
    if |ids| == 0 then Success([])
    else match load(ids[0])
      case Failure(e) => Failure(e)
      case Success(d) =>
        match LoadEach(ids[1..], load)
        case Failure(e) => Failure(e)
        case Success(rest) => Success([d] + rest)
  }

  /** Entry `i` is the first to fail, with `error`. */
  predicate FirstFailureAt<D>(ids: seq<string>, load: string -> Result<D, string>, i: int, error: string)
    requires 0 <= i < |ids|
  {
    && load(ids[i]) == Failure(error)
    && forall j :: 0 <= j < i ==> load(ids[j]).Success?
  }

  /** All or nothing: the combined load succeeds exactly when every entry
      does, and then holds every entry in id order; otherwise it reports the
      error of the first failing entry. */
  lemma {:induction false} LoadEachSpec<D>(ids: seq<string>, load: string -> Result<D, string>)
    ensures var r := LoadEach(ids, load);
      && (r.Success? <==> forall i :: 0 <= i < |ids| ==> load(ids[i]).Success?)
      && (r.Success? ==> |r.value| == |ids|)
      && (r.Success? ==> forall i :: 0 <= i < |ids| ==> r.value[i] == load(ids[i]).value)
      && (r.Failure? ==> exists i :: 0 <= i < |ids| && FirstFailureAt(ids, load, i, r.error))
    decreases |ids|
  {
    if |ids| > 0 {
      LoadEachSpec(ids[1..], load);
      var r := LoadEach(ids, load);
      var tail := LoadEach(ids[1..], load);
      forall i | 1 <= i < |ids|
        ensures ids[1..][i - 1] == ids[i]
      {
      }
      if load(ids[0]).Success? && tail.Failure? {
        var i' :| 0 <= i' < |ids| - 1 && FirstFailureAt(ids[1..], load, i', tail.error);
        assert load(ids[i' + 1]) == Failure(r.error);
        forall j | 0 <= j < i' + 1
          ensures load(ids[j]).Success?
        {
          if j > 0 {
            assert ids[j] == ids[1..][j - 1];
          }
        }
        assert FirstFailureAt(ids, load, i' + 1, r.error);
      } else if load(ids[0]).Failure? {
        assert FirstFailureAt(ids, load, 0, r.error);
      }
    }
  }

  /** `Promise.all` over the metadata loads of `ids`. */
  function LoadAll<D>(base: string, ids: seq<string>, fetch: string -> FetchOutcome,
                      parse: string -> Result<D, Thrown>, valid: D -> bool): (r: Result<seq<D>, string>)
    ensures r.Success? ==> |r.value| == |ids|
    ensures |ids| > 0 && LoadMeta(base, ids[0], fetch, parse, valid).Failure? ==>
      r == Failure(LoadMeta(base, ids[0], fetch, parse, valid).error)
  {
    LoadEach(ids, id => LoadMeta(base, id, fetch, parse, valid))
  }

  /** The metadata load of entry `i` is the first to fail, with `error`. */
  predicate MetaFailsFirstAt<D>(base: string, ids: seq<string>, fetch: string -> FetchOutcome,
                                parse: string -> Result<D, Thrown>, valid: D -> bool, i: int, error: string)
    requires 0 <= i < |ids|
  {
    && LoadMeta(base, ids[i], fetch, parse, valid) == Failure(error)
    && forall j :: 0 <= j < i ==> LoadMeta(base, ids[j], fetch, parse, valid).Success?
  }

  /** The all-or-nothing contract of `LoadEachSpec`, for the metadata loads. */
  lemma LoadAllSpec<D>(base: string, ids: seq<string>, fetch: string -> FetchOutcome,
                       parse: string -> Result<D, Thrown>, valid: D -> bool)
    ensures var r := LoadAll(base, ids, fetch, parse, valid);
      && (r.Success? <==> forall i :: 0 <= i < |ids| ==> LoadMeta(base, ids[i], fetch, parse, valid).Success?)
      && (r.Success? ==> |r.value| == |ids|)
      && (r.Success? ==>
            forall i :: 0 <= i < |ids| ==> r.value[i] == LoadMeta(base, ids[i], fetch, parse, valid).value)
      && (r.Failure? ==>
            exists i :: 0 <= i < |ids| && MetaFailsFirstAt(base, ids, fetch, parse, valid, i, r.error))
  {
    var load := id => LoadMeta(base, id, fetch, parse, valid);
    LoadEachSpec(ids, load);
    var r := LoadAll(base, ids, fetch, parse, valid);
    if r.Failure? {
      var i :| 0 <= i < |ids| && FirstFailureAt(ids, load, i, r.error);
      assert MetaFailsFirstAt(base, ids, fetch, parse, valid, i, r.error);
    }
  }

  /** The state `useAllSutras` returns. */
  datatype AllSutrasState<D> = AllSutrasState(sutras: seq<D>, loading: bool, error: Option<string>)

  /** The all-collections effect, run to completion. */
  function AllSutrasEffect<D>(base: string, fetch: string -> FetchOutcome,
                              parse: string -> Result<D, Thrown>, valid: D -> bool): (r: AllSutrasState<D>)
    ensures !r.loading
    ensures r.error.None? <==> |r.sutras| == |SutraIds|
    ensures r.error.Some? ==> r.sutras == []
    ensures var l := LoadAll(base, SutraIds, fetch, parse, valid);
      && (l.Success? ==> r.sutras == l.value && r.error.None?)
      && (l.Failure? ==> r.error == Some(l.error))
    ensures r.error.None? ==> forall i :: 0 <= i < |SutraIds| ==>
      r.sutras[i] == LoadMeta(base, SutraIds[i], fetch, parse, valid).value
    ensures r.error.Some? ==>
      exists i :: 0 <= i < |SutraIds| && MetaFailsFirstAt(base, SutraIds, fetch, parse, valid, i, r.error.value)
  {
    LoadAllSpec(base, SutraIds, fetch, parse, valid);
    match LoadAll(base, SutraIds, fetch, parse, valid)
    case Success(list) => AllSutrasState(list, false, None)
    case Failure(e) => AllSutrasState([], false, Some(e))
  }

  /** The collection page and the home page agree: when the home page's
      load succeeds, the collection page of each listed id shows the same
      metadata the home page lists for it. */
  lemma CollectionPageAgreesWithHome<D>(s: LoadState<D>, base: string, i: int,
                                        fetch: string -> FetchOutcome,
                                        parse: string -> Result<D, Thrown>, valid: D -> bool)
    requires 0 <= i < |SutraIds|
    requires AllSutrasEffect(base, fetch, parse, valid).error.None?
    ensures SutraEffect(s, base, SutraIds[i], fetch, parse, valid).data
         == Some(AllSutrasEffect(base, fetch, parse, valid).sutras[i])
  {
  }

  /** Re-running the collection effect on its own settled state changes
      nothing: the outcome depends on the fetched file alone. */
  lemma SutraEffectRerun<D>(s: LoadState<D>, base: string, sutraId: string,
                            fetch: string -> FetchOutcome, parse: string -> Result<D, Thrown>,
                            valid: D -> bool)
    ensures var r := SutraEffect(s, base, sutraId, fetch, parse, valid);
      SutraEffect(r, base, sutraId, fetch, parse, valid) == r
  {
  }

  /** `sutras[0] || null`: the first collection, if any. */
  function FirstSutra<D>(s: AllSutrasState<D>): (r: Option<D>)
    ensures r.Some? <==> |s.sutras| > 0
    ensures r.Some? ==> r.value == s.sutras[0]
  {
    if |s.sutras| > 0 then Some(s.sutras[0]) else None
  }
}
