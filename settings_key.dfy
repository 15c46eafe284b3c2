/**
 * The GSettings keys (`src/settings/key.rs`): an enum whose text form is its
 * variant name in kebab case, both for printing (`Display`) and for parsing
 * (`EnumString`).
 */
module SettingsKey {
  import opened Wrappers

  datatype Key =
    | ApiLookupDomain
    | DarkMode
    | Notifications
    | WindowWidth
    | WindowHeight
    | IsMaximized
    | BooksDir

  /** The error `strum` returns for a string naming no variant. */
  datatype ParseError = VariantNotFound

  /**
   * `Display`, as `serialize_all = "kebab_case"` derives it: the variant name
   * with its words lower-cased and joined by '-'.
   */
  function ToString(k: Key): string {
    match k
    case ApiLookupDomain => "api-lookup-domain"
    case DarkMode => "dark-mode"
    case Notifications => "notifications"
    case WindowWidth => "window-width"
    case WindowHeight => "window-height"
    case IsMaximized => "is-maximized"
    case BooksDir => "books-dir"
  }

  /** `FromStr`, as `EnumString` derives it: one arm per serialized name. */
  function FromStr(s: string): Result<Key, ParseError> {
    match s
    case "api-lookup-domain" => Ok(ApiLookupDomain)
    case "dark-mode" => Ok(DarkMode)
    case "notifications" => Ok(Notifications)
    case "window-width" => Ok(WindowWidth)
    case "window-height" => Ok(WindowHeight)
    case "is-maximized" => Ok(IsMaximized)
    case "books-dir" => Ok(BooksDir)
    case _ => Err(VariantNotFound)
  }

  /** Every key parses back from its printed form. */
  lemma FromStrToString(k: Key)
    ensures FromStr(ToString(k)) == Ok(k)
  {
  }

  /** A string parses exactly when it is the printed form of the key it parses to. */
  lemma FromStrExactly(s: string)
    ensures FromStr(s).Ok? ==> ToString(FromStr(s).value) == s
    ensures FromStr(s).Err? <==> forall k: Key :: ToString(k) != s
  {
    forall k: Key ensures FromStr(ToString(k)) == Ok(k) {
      FromStrToString(k);
    }
  }

  /** Distinct keys print differently, so no two settings share a GSettings key. */
  lemma ToStringInjective(a: Key, b: Key)
    ensures ToString(a) == ToString(b) ==> a == b
  {
    FromStrToString(a);
    FromStrToString(b);
  }
}
