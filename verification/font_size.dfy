/** The reading font size: its four values, their names as stored and as
    offered in the menu, pixel sizes and display labels; the service that
    persists the choice; and the context provider that holds it. */
module FontSizes {
  import opened Wrappers
  import opened KeyValueStore
  import Strings

  datatype FontSize = Small | Medium | Large | XLarge

  /** The string form of each size, as stored and as the union type spells it. */
  function Name(f: FontSize): (s: string)
    ensures |s| >= 5
  {
    match f
    case Small => "small"
    case Medium => "medium"
    case Large => "large"
    case XLarge => "x-large"
  }

  /** The inverse of `Name` on the stored strings. */
  function Parse(s: string): (r: Option<FontSize>)
    ensures r.Some? ==> Name(r.value) == s
  {
    if s == "small" then Some(Small)
    else if s == "medium" then Some(Medium)
    else if s == "large" then Some(Large)
    else if s == "x-large" then Some(XLarge)
    else None
  }

  /** Parsing a size's name gives the size back. */
  lemma ParseName(f: FontSize)
    ensures Parse(Name(f)) == Some(f)
  {
  }

  /** `FONT_SIZE_MAP` as numbers: the pixel size of each value. */
  function PixelSize(f: FontSize): nat {
    match f
    case Small => 14
    case Medium => 18
    case Large => 22
    case XLarge => 26
  }

  /** `FONT_SIZE_MAP` as written: the CSS length of each value. */
  function CssSize(f: FontSize): (s: string)
    ensures |s| == 4 && s[2..] == "px"
  {
    match f
    case Small => "14px"
    case Medium => "18px"
    case Large => "22px"
    case XLarge => "26px"
  }

  /** `FONT_SIZE_LABELS`: small, medium, large, extra large. */
  function Label(f: FontSize): (s: string)
    ensures 1 <= |s| <= 2
  {
    match f
    case Small => "\U{5C0F}"
    case Medium => "\U{4E2D}"
    case Large => "\U{5927}"
    case XLarge => "\U{7279}\U{5927}"
  }

  /** The declaration order, which is the order the menu offers. */
  const AllSizes: seq<FontSize> := [Small, Medium, Large, XLarge]

  /** The whitelist `loadFontSize` accepts. */
  const StoredNames: seq<string> := ["small", "medium", "large", "x-large"]

  /** The values are exactly the four in `AllSizes`, each once; the
      whitelist is their names; the pixel sizes strictly increase and the
      CSS lengths spell them out. */
  lemma SizeTables()
    ensures forall f: FontSize :: f in AllSizes
    ensures forall i, j :: 0 <= i < j < |AllSizes| ==> AllSizes[i] != AllSizes[j]
    ensures |StoredNames| == |AllSizes|
    ensures forall i :: 0 <= i < |AllSizes| ==> StoredNames[i] == Name(AllSizes[i])
    ensures forall i, j :: 0 <= i < j < |AllSizes| ==>
      PixelSize(AllSizes[i]) < PixelSize(AllSizes[j])
    ensures forall f: FontSize :: CssSize(f) == Strings.NatToDecimal(PixelSize(f)) + "px"
    ensures forall f, g: FontSize :: f != g ==> Label(f) != Label(g)
  {
    forall f: FontSize
      ensures f in AllSizes
    {
      match f
      case Small => assert AllSizes[0] == f;
      case Medium => assert AllSizes[1] == f;
      case Large => assert AllSizes[2] == f;
      case XLarge => assert AllSizes[3] == f;
    }
    forall f: FontSize
      ensures CssSize(f) == Strings.NatToDecimal(PixelSize(f)) + "px"
    {
      match f
      case Small => assert Strings.NatToDecimal(14) == "14";
      case Medium => assert Strings.NatToDecimal(18) == "18";
      case Large => assert Strings.NatToDecimal(22) == "22";
      case XLarge => assert Strings.NatToDecimal(26) == "26";
    }
  }

  // ---------------------------------------------------------------------
  // Persistence
  // ---------------------------------------------------------------------

  const FontSizeKey: string := "fontSize"

  /** `saveFontSize`: a failing write is swallowed and changes nothing. */
  function SaveFontSize(st: Store, f: FontSize): (r: Store)
    ensures st.writable ==> GetItem(r, FontSizeKey) == if st.readable then Success(Some(Name(f))) else GetItem(st, FontSizeKey)
    ensures st.writable ==> FontSizeKey in r.items && r.items[FontSizeKey] == Name(f)
    ensures !st.writable ==> r == st
    ensures r.readable == st.readable && r.writable == st.writable
    ensures forall k :: k != FontSizeKey ==> GetItem(r, k) == GetItem(st, k)
  {
    match SetItem(st, FontSizeKey, Name(f))
    case Success(st') => st'
    case Failure(_) => st
  }

  /** `loadFontSize`: the stored value when it names a size; `medium` for
      anything else, a missing key, or a failing read. */
  function LoadFontSize(st: Store): (f: FontSize)
    ensures (st.readable && FontSizeKey in st.items && st.items[FontSizeKey] in StoredNames)
      ==> Name(f) == st.items[FontSizeKey]
    ensures !(st.readable && FontSizeKey in st.items && st.items[FontSizeKey] in StoredNames)
      ==> f == Medium
  {
    match GetItem(st, FontSizeKey)
    case Failure(_) => Medium
    case Success(stored) =>
      if stored.Some? && stored.value != "" && stored.value in StoredNames
      then Parse(stored.value).GetOr(Medium)
      else Medium
  }

  /** With working storage, loading after saving gives the saved size. */
  lemma SaveLoadRoundTrip(st: Store, f: FontSize)
    requires Working(st)
    ensures LoadFontSize(SaveFontSize(st, f)) == f
  {
    ParseName(f);
  }

  // ---------------------------------------------------------------------
  // Context provider
  // ---------------------------------------------------------------------

  /** A mounted `FontSizeProvider`: the size in memory and the store. */
  datatype Provider = Provider(fontSize: FontSize, store: Store)

  /** Mounting reads the initial size from storage. */
  function MountProvider(st: Store): (p: Provider)
    ensures p.store == st && p.fontSize == LoadFontSize(st)
  {
    Provider(LoadFontSize(st), st)
  }

  /** `setFontSize`: the size in memory becomes `f` whether or not it could
      be persisted. */
  function SetFontSize(p: Provider, f: FontSize): (r: Provider)
    ensures r.fontSize == f
    ensures r.store == SaveFontSize(p.store, f)
  {
    Provider(f, SaveFontSize(p.store, f))
  }

  /** With working storage, a provider mounted after `setFontSize(f)` starts
      at `f`; with failing writes the store is untouched. */
  lemma SetFontSizePersists(p: Provider, f: FontSize)
    ensures Working(p.store) ==> MountProvider(SetFontSize(p, f).store).fontSize == f
    ensures !p.store.writable ==> SetFontSize(p, f).store == p.store
  {
    if Working(p.store) {
      SaveLoadRoundTrip(p.store, f);
    }
  }

  const OutsideProviderError: string := "useFontSize must be used within a FontSizeProvider"

  /** `useFontSize`: the enclosing provider, or the error it throws outside one. */
  function UseFontSize(context: Option<Provider>): (r: Result<Provider, string>)
    ensures context.None? <==> r == Failure(OutsideProviderError)
    ensures context.Some? ==> r == Success(context.value)
  {
    match context
    case None => Failure(OutsideProviderError)
    case Some(p) => Success(p)
  }
}
