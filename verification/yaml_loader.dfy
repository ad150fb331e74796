/** The YAML loading service: the empty-content guard and error wrapping
    around the parser, the fetch-then-parse pipeline with its error
    messages, and the chapter existence probe. The YAML parser and `fetch`
    are parameters; a parsed document has the abstract type `D`. */
module YamlLoader {
  import opened Wrappers
  import opened Strings

  /** A thrown value: an `Error` with its message, or anything else. */
  datatype Thrown = ErrorValue(message: string) | OtherValue

  /** What `fetch(path)` resolves to: a response with its status, status
      text and the outcome of reading its body, or a rejection. */
  datatype FetchOutcome =
    | Response(ok: bool, statusText: string, body: Result<string, Thrown>)
    | Rejected(thrown: Thrown)

  const EmptyContentError: string := "YAML content is empty"
  const ParseErrorPrefix: string := "YAML parse error: "
  const UnknownParseError: string := "Unknown YAML parse error"
  const FileErrorPrefix: string := "File load error: "
  const UnknownFileError: string := "Unknown file load error"

  /** `loadYaml`: empty or blank content is rejected before the parser runs;
      parser errors are re-raised with a prefix. */
  function LoadYaml<D>(content: string, parse: string -> Result<D, Thrown>): (r: Result<D, string>)
    ensures Trim(content) == "" ==> r == Failure(EmptyContentError)
    ensures Trim(content) != "" ==> match parse(content)
      case Success(d) => r == Success(d)
      case Failure(ErrorValue(m)) => r == Failure(ParseErrorPrefix + m)
      case Failure(OtherValue) => r == Failure(UnknownParseError)
  {
    if content == "" || Trim(content) == "" then Failure(EmptyContentError)
    else match parse(content)
      case Success(d) => Success(d)
      case Failure(ErrorValue(m)) => Failure(ParseErrorPrefix + m)
      case Failure(OtherValue) => Failure(UnknownParseError)
  }

  /** The `catch` of `loadYamlFromFile`. */
  function WrapFileError(t: Thrown): (msg: string)
    ensures StartsWith(msg, FileErrorPrefix) || msg == UnknownFileError
  {
    match t
    case ErrorValue(m) => FileErrorPrefix + m
    case OtherValue => UnknownFileError
  }

  /** `loadYamlFromFile`: fetch failures, non-OK responses and body read
      failures are reported with the file-error prefix; the parse of the body
      is returned unawaited, so its errors escape the `catch` unprefixed. */
  function LoadYamlFromFile<D>(path: string, fetch: string -> FetchOutcome,
                               parse: string -> Result<D, Thrown>): (r: Result<D, string>)
    ensures fetch(path).Rejected? ==> r == Failure(WrapFileError(fetch(path).thrown))
    ensures fetch(path).Response? && !fetch(path).ok ==>
      r == Failure(FileErrorPrefix + ("Failed to fetch " + path + ": " + fetch(path).statusText))
    ensures fetch(path).Response? && fetch(path).ok && fetch(path).body.Failure? ==>
      r == Failure(WrapFileError(fetch(path).body.error))
    ensures fetch(path).Response? && fetch(path).ok && fetch(path).body.Success? ==>
      r == LoadYaml(fetch(path).body.value, parse)
  {
    match fetch(path)
    case Rejected(t) => Failure(WrapFileError(t))
    case Response(ok, statusText, body) =>
      if !ok then Failure(WrapFileError(ErrorValue("Failed to fetch " + path + ": " + statusText)))
      else match body
        case Failure(t) => Failure(WrapFileError(t))
        case Success(content) => LoadYaml(content, parse)
  }

  /** Parse errors reached through `loadYamlFromFile` keep their own message:
      they carry the parse prefix, never the file-load prefix. */
  lemma ParseErrorsNotRewrapped<D>(path: string, fetch: string -> FetchOutcome,
                                   parse: string -> Result<D, Thrown>, content: string, m: string)
    requires fetch(path) == Response(true, "OK", Success(content))
    requires Trim(content) != "" && parse(content) == Failure(ErrorValue(m))
    ensures LoadYamlFromFile(path, fetch, parse) == Failure(ParseErrorPrefix + m)
    ensures !StartsWith(LoadYamlFromFile(path, fetch, parse).error, FileErrorPrefix)
  {
    assert (ParseErrorPrefix + m)[0] == 'Y';
  }

  /** The outcome depends on nothing but what `fetch` gives for `path`. */
  lemma LoadDependsOnlyOnPath<D>(path: string, f1: string -> FetchOutcome, f2: string -> FetchOutcome,
                                 parse: string -> Result<D, Thrown>)
    requires f1(path) == f2(path)
    ensures LoadYamlFromFile(path, f1, parse) == LoadYamlFromFile(path, f2, parse)
  {
  }

  // ---------------------------------------------------------------------
  // Paths
  // ---------------------------------------------------------------------

  /** `{BASE_URL}content/{sutraId}/chapter-{n}.yml`. */
  function ChapterPath(base: string, sutraId: string, n: int): (p: string)
    ensures StartsWith(p, base + "content/" + sutraId + "/chapter-")
    ensures EndsWith(p, ".yml")
  {
    var prefix := base + "content/" + sutraId + "/chapter-";
    var p := prefix + IntToDecimal(n) + ".yml";
    assert p[..|prefix|] == prefix;
    assert p[|p| - 4..] == ".yml";
    p
  }

  /** `{BASE_URL}content/{sutraId}/meta.yml`. */
  function MetaPath(base: string, sutraId: string): (p: string)
    ensures StartsWith(p, base + "content/" + sutraId + "/")
    ensures EndsWith(p, "/meta.yml")
  {
    var dir := base + "content/" + sutraId;
    var p := dir + "/meta.yml";
    assert p[..|dir| + 1] == dir + "/";
    assert p[|dir|..] == "/meta.yml";
    p
  }

  /** Chapter paths of one collection name their chapter unambiguously. */
  lemma ChapterPathInjective(base: string, sutraId: string, a: int, b: int)
    requires ChapterPath(base, sutraId, a) == ChapterPath(base, sutraId, b)
    ensures a == b
  {
    var prefix := base + "content/" + sutraId + "/chapter-";
    var pa := ChapterPath(base, sutraId, a);
    var pb := ChapterPath(base, sutraId, b);
    assert |IntToDecimal(a)| == |IntToDecimal(b)|;
    assert pa[|prefix|..|pa| - 4] == IntToDecimal(a);
    assert pb[|prefix|..|pb| - 4] == IntToDecimal(b);
    IntToDecimalInjective(a, b);
  }

  // ---------------------------------------------------------------------
  // Existence probe
  // ---------------------------------------------------------------------

  /** `checkChapterExists`: the response's `ok` flag for the chapter's path;
      a rejected fetch means "missing". The body is never read. */
  function CheckChapterExists(base: string, sutraId: string, n: int,
                              fetch: string -> FetchOutcome): (exists_: bool)
    ensures exists_ <==> fetch(ChapterPath(base, sutraId, n)).Response?
                         && fetch(ChapterPath(base, sutraId, n)).ok
  {
    match fetch(ChapterPath(base, sutraId, n))
    case Rejected(_) => false
    case Response(ok, _, _) => ok
  }

  /** The probe ignores the body: responses that differ only in their body
      give the same answer. */
  lemma ProbeIgnoresBody(base: string, sutraId: string, n: int,
                         f1: string -> FetchOutcome, f2: string -> FetchOutcome)
    requires f1(ChapterPath(base, sutraId, n)).Response? && f2(ChapterPath(base, sutraId, n)).Response?
    requires f1(ChapterPath(base, sutraId, n)).ok == f2(ChapterPath(base, sutraId, n)).ok
    ensures CheckChapterExists(base, sutraId, n, f1) == CheckChapterExists(base, sutraId, n, f2)
  {
  }
}
