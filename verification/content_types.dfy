/** The collection metadata record (`Sutra`) as far as the application's
    logic reads it, and the route every chapter link points to. The
    descriptive fields (titles, tradition, translator, attributions, cover
    image) are carried along but never inspected by the logic. */
module ContentTypes {
  import opened Wrappers
  import Strings

  datatype SutraMeta = SutraMeta(
    id: string,
    title: string,
    chapters: int,
    startChapter: Option<int>,
    defaultChapter: Option<int>
  )

  /** The client-side route `/{sutraId}/{chapter}`. */
  function ChapterRoute(sutraId: string, chapter: int): (r: string)
    ensures Strings.StartsWith(r, "/" + sutraId + "/")
  {
    "/" + sutraId + "/" + Strings.IntToDecimal(chapter)
  }

  /** Routes of one collection name their chapters unambiguously. */
  lemma ChapterRouteInjective(sutraId: string, a: int, b: int)
    requires ChapterRoute(sutraId, a) == ChapterRoute(sutraId, b)
    ensures a == b
  {
    var p := "/" + sutraId + "/";
    assert ChapterRoute(sutraId, a)[|p|..] == Strings.IntToDecimal(a);
    assert ChapterRoute(sutraId, b)[|p|..] == Strings.IntToDecimal(b);
    Strings.IntToDecimalInjective(a, b);
  }
}
