/**
 Shared vocabulary of the import model: how a name is used (`NameUse`),
 whether a path has a leading `::` (`Rooted`), and the attribute-like
 properties of a `use` item (visibility, docs, configs).

 `Visibility`, `DocsList` and `ConfigsList` are referred to by the source but
 defined elsewhere; they are modelled here as plain values. Docs and configs
 are kept opaque: only their entries and whether they are empty matter.
 */
module Common {
  import Order

  datatype Option<T> = None | Some(value: T)

  /** `::name` (Used) or `::name as alias` (Renamed). One type for all three source copies. */
  datatype NameUse = Used | Renamed(alias: string)

  /** The value-level view of `NameUse::as_ref`: the same variant and the same alias. */
  function AsRef(u: NameUse): (r: NameUse)
    ensures r.Used? <==> u.Used?
    ensures r.Renamed? ==> r.alias == u.alias
  {
    match u
    case Used => Used
    case Renamed(alias) => Renamed(alias)
  }

  /** Derived `Ord` of `NameUse`: variant order first, then the alias. */
  function NameUseLt(a: NameUse, b: NameUse): bool {
    match (a, b)
    case (Used, Renamed(_)) => true
    case (Renamed(x), Renamed(y)) => Order.StrLt(x, y)
    case _ => false
  }

  lemma NameUseLtStrictTotal()
    ensures Order.StrictTotalOrder(NameUseLt)
  {
    Order.StrLtStrictTotal();
  }

  /** `Used` sorts before every rename, as the leaf ordering of the flattened form relies on. */
  lemma UsedBeforeRenamed(u: NameUse)
    ensures u.Renamed? <==> NameUseLt(Used, u)
    ensures !NameUseLt(u, Used)
  {
  }

  /** If Rooted, the path has a leading `::`. */
  datatype Rooted = Rooted | Unrooted

  /** Derived `Ord` of `Rooted`. */
  function RootedLt(a: Rooted, b: Rooted): bool {
    a.Rooted? && b.Unrooted?
  }

  lemma RootedFirst(r: Rooted)
    ensures RootedLt(Rooted, r) <==> r.Unrooted?
    ensures !RootedLt(r, Rooted)
  {
  }

  /** `pub(self)`, `pub(super)`, `pub(in path)`, `pub(crate)`, `pub`. */
  datatype Visibility = This | Super | In(path: seq<string>) | Crate | Public

  /** The doc blocks attached to an item. */
  datatype DocsList = DocsList(blocks: seq<string>) {
    predicate IsEmpty() { |blocks| == 0 }
  }

  /** The `#[cfg(...)]` attributes attached to an item, as rendered lines. */
  datatype ConfigsList = ConfigsList(configs: seq<string>) {
    predicate IsEmpty() { |configs| == 0 }
  }

  const EmptyConfigs: ConfigsList := ConfigsList([])

  /** Lexicographic order on sequences of strings (paths, config lines, doc blocks). */
  function StringsLt(a: seq<string>, b: seq<string>): bool {
    Order.SeqLt(Order.StrLt, a, b)
  }

  lemma StringsLtStrictTotal()
    ensures Order.StrictTotalOrder(StringsLt)
  {
    Order.StrLtStrictTotal();
    Order.SeqLtStrictTotal(Order.StrLt);
    var lex := (a: seq<string>, b: seq<string>) => Order.SeqLt(Order.StrLt, a, b);
    assert forall a, b :: StringsLt(a, b) == lex(a, b);
  }

  /** Configs compare lexicographically by their entries. */
  function ConfigsLt(a: ConfigsList, b: ConfigsList): bool {
    StringsLt(a.configs, b.configs)
  }

  lemma ConfigsLtStrictTotal()
    ensures Order.StrictTotalOrder(ConfigsLt)
  {
    StringsLtStrictTotal();
  }

  /** The empty configs list sorts before every other one. */
  lemma EmptyConfigsFirst(c: ConfigsList)
    ensures !ConfigsLt(c, EmptyConfigs)
    ensures ConfigsLt(EmptyConfigs, c) <==> !c.IsEmpty()
  {
  }

  /** Rust's `char::is_whitespace`: the Unicode White_Space property. */
  predicate IsWhitespace(c: char) {
    || c == ' ' || ('\t' <= c <= '\r')
    || c == '\U{85}' || c == '\U{A0}' || c == '\U{1680}'
    || ('\U{2000}' <= c <= '\U{200A}')
    || c == '\U{2028}' || c == '\U{2029}' || c == '\U{202F}' || c == '\U{205F}' || c == '\U{3000}'
  }

  /** Rust's `str::trim_end`: drop the longest all-whitespace suffix. */
  function TrimEnd(s: string): (r: string)
    ensures r <= s
    ensures |r| == 0 || !IsWhitespace(r[|r| - 1])
    ensures forall i :: |r| <= i < |s| ==> IsWhitespace(s[i])
  {
    if |s| > 0 && IsWhitespace(s[|s| - 1]) then TrimEnd(s[..|s| - 1]) else s
  }

  /** `s.trim().is_empty()`: every character is whitespace. */
  predicate IsBlank(s: string) {
    forall i :: 0 <= i < |s| ==> IsWhitespace(s[i])
  }
}
