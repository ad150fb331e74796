/** Which chapter a collection card opens, and the table of contents: the
    chapter list it generates and the entry it marks as current. */
module Selection {
  import opened Wrappers
  import opened ContentTypes
  import YamlLoader
  import DataHooks
  import opened Strings

  /** `getDefaultChapter`: a declared default chapter wins (even 0, since the
      test is against `undefined`), then a declared start chapter, then 0 for
      the Diamond Sutra and 1 for every other collection. */
  function DefaultChapter(meta: SutraMeta): (c: int)
    ensures meta.defaultChapter.Some? ==> c == meta.defaultChapter.value
    ensures meta.defaultChapter.None? && meta.startChapter.Some? ==> c == meta.startChapter.value
    ensures meta.defaultChapter.None? && meta.startChapter.None? ==>
      c == (if meta.id == "diamond-sutra" then 0 else 1)
  {
    if meta.defaultChapter.Some? then meta.defaultChapter.value
    else if meta.startChapter.Some? then meta.startChapter.value
    else if meta.id == "diamond-sutra" then 0
    else 1
  }

  /** The card's read button target. */
  function ReadLink(meta: SutraMeta): (link: string)
    ensures Strings.StartsWith(link, "/" + meta.id + "/")
  {
    ChapterRoute(meta.id, DefaultChapter(meta))
  }

  /** The read button names the default chapter and no other. */
  lemma ReadLinkNamesDefault(meta: SutraMeta, c: int)
    requires ReadLink(meta) == ChapterRoute(meta.id, c)
    ensures c == DefaultChapter(meta)
  {
    ChapterRouteInjective(meta.id, c, DefaultChapter(meta));
  }

  /** The Diamond Sutra's fallback chapter 0 opens a chapter view whose
      data hook never starts a load, since that hook wants a chapter above 0:
      the view stays in its initial loading state. */
  lemma ZeroDefaultNeverLoads<D>(meta: SutraMeta, base: string, fetch: string -> YamlLoader.FetchOutcome,
                                 parse: string -> Result<D, YamlLoader.Thrown>, valid: D -> bool)
    requires meta.id == "diamond-sutra" && meta.defaultChapter.None? && meta.startChapter.None?
    ensures DefaultChapter(meta) == 0
    ensures DataHooks.ChapterEffect(DataHooks.InitialState(), base, meta.id, DefaultChapter(meta), fetch, parse, valid)
         == DataHooks.InitialState()
  {
    DataHooks.ChapterZeroNeverLoads(base, meta.id, 0, fetch, parse, valid);
  }

  // ---------------------------------------------------------------------
  // Table of contents
  // ---------------------------------------------------------------------

  datatype TocEntry = TocEntry(num: int, isCurrent: bool, link: string)

  function Entries(sutraId: string, n: nat, current: int): (es: seq<TocEntry>)
    ensures |es| == n
    ensures forall i :: 0 <= i < n ==> es[i] == TocEntry(i + 1, current == i + 1, ChapterRoute(sutraId, i + 1))
  {
    seq(n, i requires 0 <= i < n => TocEntry(i + 1, current == i + 1, ChapterRoute(sutraId, i + 1)))
  }

  /** The rendered chapter list, or `None` while the metadata is loading or
      missing; `Failure` when building the list throws, which happens for a
      chapter count past the array limit. Chapters run 1, 2, … regardless
      of the start chapter, and links use the component's `sutraId`. */
  function TocEntries(loading: bool, sutra: Option<SutraMeta>, sutraId: string,
                      current: int): (r: Result<Option<seq<TocEntry>>, string>)
    ensures r.Success? && r.value.None? <==> loading || sutra.None?
    ensures r.Failure? <==> !loading && sutra.Some? && sutra.value.chapters > MaxArrayLength
    ensures r.Failure? ==> r.error == InvalidArrayLength
    ensures r.Success? && r.value.Some? ==>
      |r.value.value| == (if sutra.value.chapters < 0 then 0 else sutra.value.chapters)
    ensures r.Success? && r.value.Some? ==> forall i :: 0 <= i < |r.value.value| ==>
      && r.value.value[i].num == i + 1
      && (r.value.value[i].isCurrent <==> r.value.value[i].num == current)
      && r.value.value[i].link == ChapterRoute(sutraId, i + 1)
  {
    if loading || sutra.None? then Success(None)
    else
      match ArrayFromLength(sutra.value.chapters)
      case Failure(e) => Failure(e)
      case Success(n) => Success(Some(Entries(sutraId, n, current)))
  }

  /** Indices of the entries marked current. */
  function CurrentIndices(es: seq<TocEntry>): set<int> {
    set i | 0 <= i < |es| && es[i].isCurrent
  }

  /** At most one entry is current, and exactly one when the current chapter
      lies in `1..chapters`: it is the entry at index `current - 1`. */
  lemma ExactlyOneCurrent(loading: bool, sutra: Option<SutraMeta>, sutraId: string, current: int)
    requires TocEntries(loading, sutra, sutraId, current).Success?
    requires TocEntries(loading, sutra, sutraId, current).value.Some?
    ensures var es := TocEntries(loading, sutra, sutraId, current).value.value;
      && (1 <= current <= sutra.value.chapters ==> CurrentIndices(es) == {current - 1})
      && (!(1 <= current <= sutra.value.chapters) ==> CurrentIndices(es) == {})
  {
    var es := TocEntries(loading, sutra, sutraId, current).value.value;
    if 1 <= current <= sutra.value.chapters {
      assert es[current - 1].isCurrent;
      assert current - 1 in CurrentIndices(es);
    }
  }
}
