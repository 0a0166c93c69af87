/**
 * The selection part of the `/randomeuropeancountry` handler: a fixed table
 * of ten countries indexed by `random.Next(countries.Length)`. The random
 * draw is a parameter; `Random.Next(n)` promises a value in [0, n).
 */
module EuropeanCountries {

  datatype Country = Country(Name: string, ISOCode: string)

  /** The table the handler builds on every request. */
  const Countries: seq<Country> := [
    Country("Germany", "DE"),
    Country("France", "FR"),
    Country("Italy", "IT"),
    Country("Spain", "ES"),
    Country("United Kingdom", "GB"),
    Country("Netherlands", "NL"),
    Country("Belgium", "BE"),
    Country("Sweden", "SE"),
    Country("Norway", "NO"),
    Country("Denmark", "DK")
  ]

  /** An ISO 3166-1 alpha-2 shaped code: two upper-case ASCII letters. */
  predicate IsAlpha2(code: string) {
    |code| == 2 && forall i :: 0 <= i < 2 ==> 'A' <= code[i] <= 'Z'
  }

  /** `countries[random.Next(countries.Length)]` with the draw supplied as `draw`. */
  function RandomEuropeanCountry(draw: int): (c: Country)
    requires 0 <= draw < |Countries|
    ensures c in Countries
    ensures c.Name != "" && IsAlpha2(c.ISOCode)
  {
    Countries[draw]
  }

  /** The table has ten entries, with no name and no code repeated. */
  lemma TableShape()
    ensures |Countries| == 10
    ensures forall i, j :: 0 <= i < j < |Countries| ==> Countries[i].Name != Countries[j].Name
    ensures forall i, j :: 0 <= i < j < |Countries| ==> Countries[i].ISOCode != Countries[j].ISOCode
  {
  }

  /** Distinct draws give distinct countries: no entry is favoured by appearing twice. */
  lemma SelectionInjective(i: int, j: int)
    requires 0 <= i < |Countries| && 0 <= j < |Countries| && i != j
    ensures RandomEuropeanCountry(i) != RandomEuropeanCountry(j)
  {
    TableShape();
  }

  /** Every country of the table is the answer to some draw. */
  lemma EveryCountryReachable(c: Country)
    requires c in Countries
    ensures exists draw :: 0 <= draw < |Countries| && RandomEuropeanCountry(draw) == c
  {
    var draw :| 0 <= draw < |Countries| && Countries[draw] == c;
    assert RandomEuropeanCountry(draw) == c;
  }
}
