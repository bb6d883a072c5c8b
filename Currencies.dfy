/** The closed currency enumeration (enums/Currencies.java): eighteen
    constants, each with its three-letter name and a descriptive full name. */
module Currencies {
  import opened Wrappers

  datatype Currency =
    | USD | EUR | GBP | JPY | AUD | CAD | CNY | INR | CHF
    | SEK | NZD | KRW | SGD | TRY | RUB | ZAR | BRL | KPW

  /** The constants in declaration order: the array `currencyExists` scans. */
  const Values: seq<Currency> :=
    [USD, EUR, GBP, JPY, AUD, CAD, CNY, INR, CHF, SEK, NZD, KRW, SGD, TRY, RUB, ZAR, BRL, KPW]

  /** `name()`: the identifier the constant is declared with, always three
      upper-case letters. */
  function Name(c: Currency): (r: string)
    ensures |r| == 3
    ensures forall j :: 0 <= j < 3 ==> 'A' <= r[j] <= 'Z'
  {
    match c
    case USD => "USD"
    case EUR => "EUR"
    case GBP => "GBP"
    case JPY => "JPY"
    case AUD => "AUD"
    case CAD => "CAD"
    case CNY => "CNY"
    case INR => "INR"
    case CHF => "CHF"
    case SEK => "SEK"
    case NZD => "NZD"
    case KRW => "KRW"
    case SGD => "SGD"
    case TRY => "TRY"
    case RUB => "RUB"
    case ZAR => "ZAR"
    case BRL => "BRL"
    case KPW => "KPW"
  }

  /** `getFullName()`: the description fixed at declaration, a capitalised
      phrase. */
  function FullName(c: Currency): (r: string)
    ensures |r| > 0 && 'A' <= r[0] <= 'Z'
  {
    match c
    case USD => "United States Dollar"
    case EUR => "Euro"
    case GBP => "British Pound Sterling"
    case JPY => "Japanese Yen"
    case AUD => "Australian Dollar"
    case CAD => "Canadian Dollar"
    case CNY => "Chinese Yuan"
    case INR => "Indian Rupee"
    case CHF => "Swiss Franc"
    case SEK => "Swedish Krona"
    case NZD => "New Zealand Dollar"
    case KRW => "South Korean Won"
    case SGD => "Singapore Dollar"
    case TRY => "Turkish Lira"
    case RUB => "Russian Ruble"
    case ZAR => "South African Rand"
    case BRL => "Brazilian Real"
    case KPW => "North Korean Won"
  }

  lemma ValuesListsEveryConstant(c: Currency)
    ensures c in Values
  {
  }

  /** No two constants share a name. */
  lemma NameInjective()
    ensures forall a, b :: Name(a) == Name(b) ==> a == b
  {
    forall a, b ensures Name(a) == Name(b) ==> a == b {
      match a
      case USD =>
      case _ =>
    }
  }

  /** No two constants share a full name. */
  lemma FullNameInjective()
    ensures forall a, b :: FullName(a) == FullName(b) ==> a == b
  {
    forall a, b ensures FullName(a) == FullName(b) ==> a == b {
      match a
      case USD =>
      case _ =>
    }
  }

  /** The loop of `currencyExists`: scans `Values` from index `i` and returns
      the first constant whose name equals `s`. */
  function FindByName(s: string, i: nat): (r: Option<Currency>)
    requires i <= |Values|
    decreases |Values| - i
    ensures r.Some? ==> Name(r.value) == s && r.value in Values[i..]
    ensures r.None? ==> forall j :: i <= j < |Values| ==> Name(Values[j]) != s
  {
    if i == |Values| then None
    else if Name(Values[i]) == s then Some(Values[i])
    else FindByName(s, i + 1)
  }

  /** `currencyExists`: parses a currency code. A null argument never equals
      a name, so it yields null like any unknown code. */
  function CurrencyExists(s: Option<string>): (r: Option<Currency>)
    ensures r.Some? ==> s.Some? && Name(r.value) == s.value
    ensures r.None? ==> s.None? || forall c :: Name(c) != s.value
  {
    if s.None? then None
    else
      var r := FindByName(s.value, 0);
      if r.None? then
        forall c ensures Name(c) != s.value {
          ValuesListsEveryConstant(c);
        }
        r
      else r
  }

  /** Every constant's name parses back to that constant. */
  lemma CurrencyExistsRoundTrip(c: Currency)
    ensures CurrencyExists(Some(Name(c))) == Some(c)
  {
    var r := CurrencyExists(Some(Name(c)));
    if r.Some? {
      NameInjective();
    }
  }

  /** The lookup is exact: "RPF", a code no constant has, is rejected. */
  lemma CurrencyExistsRejectsUnknown(s: string)
    requires s == "RPF"
    ensures CurrencyExists(Some(s)) == None
  {
    forall c ensures Name(c) != s {
      match c
      case USD =>
      case _ =>
    }
  }

  /** The lookup is case-sensitive: every name is upper-case, so a code with a
      lower-case letter in it, such as "usd", is rejected. */
  lemma CurrencyExistsIsCaseSensitive(s: string, k: nat)
    requires k < |s| && 'a' <= s[k] <= 'z'
    ensures CurrencyExists(Some(s)) == None
  {
    forall c ensures Name(c) != s {
      assert |Name(c)| == 3;
    }
  }
}
